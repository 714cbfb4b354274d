/**
 The results of a call on a closure, stored back into the slot table in order
 (modules/tensorflow/backend.c, the loop of execute_).
 */
module Results {
  import opened Collections
  import opened Slots
  import opened Meaning
  import opened Closures

  function StoreAll(slots: seq<Slot>, hs: seq<nat>, ret: seq<Tensor>): (r: seq<Slot>)
    requires |hs| == |ret| && InRange(slots, hs)
    ensures |r| == |slots|
    decreases |hs|
  {
    if hs == [] then slots
    else StoreAll(Store(slots, hs[0], ret[0]), hs[1..], ret[1..])
  }

  /** What the cascade of a store may reach: the leaves, and the nodes listed before the `i`-th. */
  ghost function Region(c: Closure, i: nat): set<nat>
    requires i <= |c.nodes|
  {
    (set x | x in c.leaves) + (set x | x in c.nodes[..i])
  }

  /** The `i`-th node can still take its result. */
  ghost predicate Ready(slots: seq<Slot>, c: Closure, i: nat) {
    && i < |c.nodes| && Live(slots, c.nodes[i]) && slots[c.nodes[i]].kind == NODE
    && (slots[c.nodes[i]].released ==> slots[c.nodes[i]].isParam)
    && c.nodes[i] !in Region(c, i)
    && Closed(slots, Region(c, i))
    && forall k :: 0 <= k < |slots[c.nodes[i]].spec.ins| ==> slots[c.nodes[i]].spec.ins[k] in Region(c, i)
  }

  ghost predicate AllReady(slots: seq<Slot>, c: Closure, out: seq<nat>) {
    forall k {:trigger out[k]} :: 0 <= k < |out| ==> Ready(slots, c, out[k])
  }

  /** At the start every wanted node is ready. */
  lemma ListedReady(slots: seq<Slot>, c: Closure, grad: bool, root: nat, i: nat)
    requires Formed(slots) && Listed(slots, c, grad) && i < |c.nodes|
    requires Wants(slots[c.nodes[i]], c.nodes[i], root) && root < |slots| && !slots[root].released
    ensures Ready(slots, c, i)
  {
    assert InputsEarlier(slots, c, i);
    var region := Region(c, i);
    forall x: nat, k | x in region && slots[x].kind == NODE && slots[x].released && 0 <= k < |slots[x].spec.ins|
      ensures slots[x].spec.ins[k] in region
    {
      if x !in c.leaves {
        var m :| 0 <= m < i && c.nodes[m] == x;
        assert InputsEarlier(slots, c, m);
        assert c.nodes[..m] <= c.nodes[..i];
      }
    }
  }

  /**
   A store leaves every later wanted node ready: no result is stored into a slot that an
   earlier drop_structure of the same loop has freed.
   */
  lemma StoreKeepsReady(slots: seq<Slot>, r: seq<Slot>, c: Closure, i: nat, m: nat)
    requires Ready(slots, c, i) && Ready(slots, c, m) && i < m && |r| == |slots| && AllDistinct(c.nodes)
    requires var h := c.nodes[i];
             && r[h].released == slots[h].released && (r[h].kind == NODE ==> r[h].spec == slots[h].spec)
             && Shrunk(slots[h := r[h]], r, Region(c, i))
    ensures Ready(r, c, m)
  {
    var x := c.nodes[m];
    assert Region(c, i) <= Region(c, m) by {
      assert c.nodes[..i] <= c.nodes[..m];
    }
    assert x != c.nodes[i] && x !in Region(c, i);
    assert r[x] == slots[x].(refs := r[x].refs);
  }

  /** The name `x` of `a` is still the same slot in `b`, denotes what it did, and has its value if it had one. */
  ghost predicate Stands(run: Kernel, a: seq<Slot>, b: seq<Slot>, x: nat)
    requires Formed(a) && Ordered(a) && Formed(b) && Ordered(b) && Exists(a, x)
  {
    && Exists(b, x) && Den(run, b, x) == Den(run, a, x)
    && b[x].born == a[x].born && b[x].isParam == a[x].isParam && (a[x].eh.Some? ==> b[x].eh.Some?)
  }

  /** The live slot `x` of `b` is one of `a`, of the same birth and meaning. */
  ghost predicate Stays(run: Kernel, a: seq<Slot>, b: seq<Slot>, x: nat)
    requires Formed(a) && Ordered(a) && Formed(b) && Ordered(b) && Live(b, x)
  {
    Live(a, x) && b[x].born == a[x].born && Den(run, b, x) == Den(run, a, x)
  }

  /** Every name stands, and nothing new is born. */
  ghost predicate Keeps(run: Kernel, a: seq<Slot>, b: seq<Slot>) {
    && Meaningful(run, a) && Meaningful(run, b) && |a| == |b|
    && (forall x: nat :: Exists(a, x) ==> Stands(run, a, b, x))
    && (forall x: nat :: Live(b, x) ==> Stays(run, a, b, x))
  }

  lemma StoreStep(run: Kernel, slots: seq<Slot>, c: Closure, i: nat)
    requires Meaningful(run, slots) && Ready(slots, c, i)
    ensures var h := c.nodes[i]; var r := Store(slots, h, Den(run, slots, h));
            && Keeps(run, slots, r) && Live(r, h) && r[h].eh.Some?
            && r[h].released == slots[h].released && (r[h].kind == NODE ==> r[h].spec == slots[h].spec)
            && Shrunk(slots[h := r[h]], r, Region(c, i))
  {
    var h := c.nodes[i];
    StoreSound(slots, h, Den(run, slots, h), Region(c, i));
    StoreKeeps(run, slots, h, Region(c, i));
  }

  /** The nodes at the places `out` and the values they denote, as a call answers them. */
  ghost predicate Answers(run: Kernel, slots: seq<Slot>, c: Closure, out: seq<nat>, hs: seq<nat>, ret: seq<Tensor>)
    requires Formed(slots) && Ordered(slots)
  {
    && |out| == |hs| == |ret|
    && (forall m, n :: 0 <= m < n < |out| ==> out[m] < out[n])
    && (forall k :: 0 <= k < |out| ==>
          out[k] < |c.nodes| && hs[k] == c.nodes[out[k]] && Live(slots, hs[k]) && ret[k] == Den(run, slots, hs[k]))
  }

  /**
   Storing all the results of a call keeps the table meaningful, changes no meaning, keeps
   every name, and leaves the last node stored with its value.
   */
  lemma {:induction false} StoreAllKeeps(run: Kernel, slots: seq<Slot>, c: Closure, out: seq<nat>, hs: seq<nat>,
                                         ret: seq<Tensor>)
    requires Meaningful(run, slots) && AllDistinct(c.nodes) && Answers(run, slots, c, out, hs, ret)
    requires AllReady(slots, c, out)
    requires InRange(slots, hs)
    ensures Keeps(run, slots, StoreAll(slots, hs, ret))
    ensures hs != [] ==> var h := hs[|hs| - 1];
            Live(StoreAll(slots, hs, ret), h) && StoreAll(slots, hs, ret)[h].eh.Some?
    decreases |out|
  {
    if out != [] {
      StoreStep(run, slots, c, out[0]);
      var r := Store(slots, hs[0], ret[0]);
      RestReady(slots, r, c, out);
      AnswersRest(run, slots, r, c, out, hs, ret);
      StoreAllKeeps(run, r, c, out[1..], hs[1..], ret[1..]);
      KeepsTrans(run, slots, r, StoreAll(slots, hs, ret));
    }
  }

  lemma RestReady(slots: seq<Slot>, r: seq<Slot>, c: Closure, out: seq<nat>)
    requires out != [] && |r| == |slots| && AllDistinct(c.nodes)
    requires forall m, n :: 0 <= m < n < |out| ==> out[m] < out[n]
    requires AllReady(slots, c, out)
    requires Ready(slots, c, out[0])
    requires var h := c.nodes[out[0]];
             && r[h].released == slots[h].released && (r[h].kind == NODE ==> r[h].spec == slots[h].spec)
             && Shrunk(slots[h := r[h]], r, Region(c, out[0]))
    ensures AllReady(r, c, out[1..])
  {
    forall k | 0 <= k < |out[1..]| ensures Ready(r, c, out[1..][k]) {
      StoreKeepsReady(slots, r, c, out[0], out[k + 1]);
    }
  }

  lemma AnswersRest(run: Kernel, slots: seq<Slot>, r: seq<Slot>, c: Closure, out: seq<nat>, hs: seq<nat>,
                    ret: seq<Tensor>)
    requires Keeps(run, slots, r) && out != [] && Answers(run, slots, c, out, hs, ret)
    requires AllReady(r, c, out[1..])
    ensures Answers(run, r, c, out[1..], hs[1..], ret[1..]) && InRange(r, hs[1..])
  {
    forall k | 0 <= k < |out[1..]|
      ensures hs[1..][k] == c.nodes[out[1..][k]] && Live(r, hs[1..][k]) && ret[1..][k] == Den(run, r, hs[1..][k])
    {
      assert Ready(r, c, out[1..][k]) && Stays(run, slots, r, hs[k + 1]);
      assert hs[1..][k] == hs[k + 1] && ret[1..][k] == ret[k + 1] && out[1..][k] == out[k + 1];
    }
  }

  lemma KeepsTrans(run: Kernel, a: seq<Slot>, b: seq<Slot>, c: seq<Slot>)
    requires Keeps(run, a, b) && Keeps(run, b, c)
    ensures Keeps(run, a, c)
  {
    forall x: nat | Exists(a, x) ensures Stands(run, a, c, x) {
      assert Stands(run, a, b, x) && Stands(run, b, c, x);
    }
    forall x: nat | Live(c, x) ensures Stays(run, a, c, x) {
      assert Stays(run, b, c, x) && Stays(run, a, b, x);
    }
  }
}
