/**
 How many slots of the TensorFlow back end are live at once (modules/tensorflow/backend.c: slot_new,
 tfb_free, unref, drop_structure). A ledger, kept from the commands alone, says of every name which
 slots it may keep live: its own and, while it has a recipe, those of its inputs. A slot released and no
 longer read is taken again, so a program may make any number of tensors in a small table.
 */
module Ledgers {
  import opened Collections
  import opened Wrappers
  import opened Slots
  import opened Meaning
  import opened Keys
  import opened Engines
  import opened Evolution
  import opened Programs
  import opened Gradients
  import opened Capacities

  // ---- the ledger ------------------------------------------------------------------------------------------

  /**
   A name's slot: its stamp, the stamps it may keep live, whether it surely has its value, whether
   a parameter is under its recipe, and whether it is one.
   */
  datatype Account = Account(id: nat, holds: set<nat>, valued: bool, taped: bool, isParam: bool)

  /** Slots made so far, the names, what was left behind without being released, and the mode. */
  datatype Ledger = Ledger(clock: nat, accounts: map<Name, Account>, lost: set<nat>, graph: bool)

  const OPENING := Ledger(0, map[], {}, false)

  function HeldBy(l: Ledger, x: Name): set<nat> {
    if x in l.accounts then l.accounts[x].holds else {}
  }

  /** A new name. Whatever it named before was not released. */
  function Opened(l: Ledger, x: Name, a: Account): Ledger {
    l.(clock := a.id + 1, accounts := l.accounts[x := a], lost := l.lost + HeldBy(l, x))
  }

  function Forgotten(l: Ledger, x: Name): Ledger {
    l.(accounts := l.accounts - {x}, lost := l.lost + HeldBy(l, x))
  }

  function Released(l: Ledger, x: Name): Ledger {
    l.(accounts := l.accounts - {x})
  }

  /** A value in its slot: no recipe is kept but under a parameter. */
  function Valued(a: Account): Account {
    a.(valued := true, holds := if a.taped && !a.isParam then a.holds else {a.id})
  }

  function ValuedIn(l: Ledger, x: Name): Ledger {
    if x in l.accounts then l.(accounts := l.accounts[x := Valued(l.accounts[x])]) else l
  }

  predicate AllOpen(l: Ledger, ys: seq<Name>) {
    forall k :: 0 <= k < |ys| ==> ys[k] in l.accounts
  }

  function AllHeld(l: Ledger, ys: seq<Name>): set<nat>
    requires AllOpen(l, ys)
  {
    set k, b | 0 <= k < |ys| && b in l.accounts[ys[k]].holds :: b
  }

  predicate AnyTaped(l: Ledger, ys: seq<Name>)
    requires AllOpen(l, ys)
  {
    exists k :: 0 <= k < |ys| && (l.accounts[ys[k]].isParam || l.accounts[ys[k]].taped)
  }

  function Plain(id: nat, isParam: bool): Account {
    Account(id, {id}, true, false, isParam)
  }

  /** An operation keeps its inputs, unless it was run at once with no parameter under it. */
  function OpEntry(l: Ledger, ys: seq<Name>): Account
    requires AllOpen(l, ys)
  {
    var taped := AnyTaped(l, ys);
    Account(l.clock, {l.clock} + (if l.graph || taped then AllHeld(l, ys) else {}), !l.graph, taped, false)
  }

  /** A step recorded keeps the parameter, the gradient and two temporaries; run at once it keeps nothing. */
  function StepEntry(l: Ledger, w: Name, g: Name): Account
    requires w in l.accounts && g in l.accounts
  {
    var id := l.clock + 2;
    if l.graph then
      Account(id, {l.clock, l.clock + 1, id} + l.accounts[w].holds + l.accounts[g].holds, false, true, true)
    else Account(id, {id}, true, true, true)
  }

  predicate GradOpen(l: Ledger, c: Cmd)
    requires c.Grad?
  {
    && |c.ps| == |c.xs| == |c.answers| <= MAX_PARAM && c.loss in l.accounts
    && forall k :: 0 <= k < |c.ps| ==> c.ps[k] in l.accounts && l.accounts[c.ps[k]].isParam
  }

  function OpenedAll(l: Ledger, xs: seq<Name>): Ledger
    decreases |xs|
  {
    if xs == [] then l
    else OpenedAll(Opened(l, xs[0], Plain(l.clock, false)), xs[1..])
  }

  function ForgottenAll(l: Ledger, xs: seq<Name>): Ledger {
    l.(accounts := l.accounts - (set x | x in xs),
       lost := l.lost + (set x, b | x in xs && x in l.accounts && b in l.accounts[x].holds :: b))
  }

  function LedgerStep(l: Ledger, c: Cmd): Ledger {
    match c
    case SetMode(graph) => l.(graph := graph)
    case Data(x, _) => Opened(l, x, Plain(l.clock, false))
    case Made(x, _, _) => Opened(l, x, Plain(l.clock, false))
    case Op(x, _, ys, refused) =>
      if AllOpen(l, ys) && !refused then Opened(l, x, OpEntry(l, ys)) else Forgotten(l, x)
    case Parameter(x, y) =>
      if y in l.accounts then Opened(ValuedIn(l, y), x, Plain(l.clock, true)) else Forgotten(l, x)
    case Step(x, w, g, _) =>
      if w in l.accounts && g in l.accounts then Opened(l, x, StepEntry(l, w, g)) else Forgotten(l, x)
    case Grad(_, _, xs, _) => if GradOpen(l, c) then OpenedAll(l, xs) else ForgottenAll(l, xs)
    case Release(x) => Released(l, x)
    case Read(x) => ValuedIn(l, x)
  }

  /** All that may be live. */
  function Owed(l: Ledger): set<nat> {
    l.lost + set x, b | x in l.accounts && b in l.accounts[x].holds :: b
  }

  function Unvalued(l: Ledger, x: Name): nat {
    if x in l.accounts && !l.accounts[x].valued then 1 else 0
  }

  function AllUnvalued(l: Ledger, ys: seq<Name>): nat {
    if ys == [] then 0 else Unvalued(l, ys[0]) + AllUnvalued(l, ys[1..])
  }

  /** The closures a command may have to compile. */
  function LedgerRuns(l: Ledger, c: Cmd): nat {
    match c
    case Op(_, _, ys, _) => if l.graph then 0 else AllUnvalued(l, ys)
    case Parameter(_, y) => Unvalued(l, y)
    case Read(x) => Unvalued(l, x)
    case Grad(_, _, _, _) => 1
    case Step(_, w, g, _) => if l.graph then 0 else Unvalued(l, w) + Unvalued(l, g)
    case _ => 0
  }

  /** Every command finds room: in a table of `n` slots, in the key's buffer, and among the entries. */
  ghost predicate Fits(l: Ledger, n: nat, runs: nat, prog: seq<Cmd>)
    decreases |prog|
  {
    prog == [] ||
    (var c := prog[0];
     && CmdFits(c)
     && |Owed(l)| + Births(c) <= MAX_LIVE && |Owed(l)| + Births(c) <= n + 1
     && runs + LedgerRuns(l, c) <= MAX_ENTRY
     && Fits(LedgerStep(l, c), n, runs + LedgerRuns(l, c), prog[1..]))
  }

  ghost predicate ProgramFits(n: nat, prog: seq<Cmd>) {
    Fits(OPENING, n, 0, prog)
  }

  // ---- what the ledger says of the table --------------------------------------------------------------------

  /** Everything live that `h` reaches is among these stamps. */
  ghost predicate Covered(slots: seq<Slot>, h: nat, stamps: set<nat>) {
    forall y: nat :: Live(slots, y) && Reachable(slots, h, y) ==> slots[y].born in stamps
  }

  ghost predicate Faithful(slots: seq<Slot>, h: nat, a: Account)
    requires h < |slots|
  {
    var s := slots[h];
    && s.born == a.id && s.isParam == a.isParam && (a.valued ==> s.eh.Some?)
    && (s.kind == NODE && s.underParam ==> a.taped) && Covered(slots, h, a.holds)
  }

  ghost predicate Distinct(slots: seq<Slot>) {
    forall x: nat, y: nat :: Live(slots, x) && Live(slots, y) && x != y ==> slots[x].born != slots[y].born
  }

  type Book = map<nat, Account>

  /** Every handle the program holds is in the book, and what the book says of it is so. */
  ghost predicate Kept(slots: seq<Slot>, book: Book) {
    Distinct(slots) && forall h: nat :: Exists(slots, h) ==> h in book && Faithful(slots, h, book[h])
  }

  // ---- fewer ways -------------------------------------------------------------------------------------------

  /** A table that only evolved has no new way in it, but through a slot that was made. */
  lemma WayBack(run: Kernel, a: seq<Slot>, b: seq<Slot>, h: nat, x: nat, y: nat)
    requires |a| == |b| && (forall z: nat :: z < |a| && z != h ==> Later(run, a[z], b[z]))
    requires x != h && (forall z: nat :: !Reads(b, z, h)) && Reachable(b, x, y)
    ensures Reachable(a, x, y) && y != h
  {
    var path :| Way(b, x, y, path);
    forall i | 0 <= i < |path| ensures path[i] != h {
      if i > 0 { assert Reads(b, path[i - 1], path[i]); }
    }
    forall i | 0 <= i < |path| - 1 ensures Reads(a, path[i], path[i + 1]) {
      assert Reads(b, path[i], path[i + 1]) && Later(run, a[path[i]], b[path[i]]);
    }
    assert Way(a, x, y, path);
  }

  lemma CoveredBack(run: Kernel, a: seq<Slot>, b: seq<Slot>, h: nat, x: nat, stamps: set<nat>)
    requires |a| == |b| && (forall z: nat :: z < |a| && z != h ==> Later(run, a[z], b[z]))
    requires x != h && (forall z: nat :: !Reads(b, z, h)) && Covered(a, x, stamps)
    ensures Covered(b, x, stamps)
  {
    hide Reachable;
    forall y: nat | Live(b, y) && Reachable(b, x, y) ensures b[y].born in stamps {
      WayBack(run, a, b, h, x, y);
      assert Later(run, a[y], b[y]);
    }
  }

  lemma ReadsOlder(slots: seq<Slot>, z: nat, h: nat)
    requires Ordered(slots) && Reads(slots, z, h)
    ensures Live(slots, h) && slots[h].born < slots[z].born
  {
    assert InputsBelow(slots, z);
    var k :| 0 <= k < |slots[z].spec.ins| && slots[z].spec.ins[k] == h;
  }

  /** No recipe reads a slot that is free, or that is the newest. */
  lemma Unread(slots: seq<Slot>, h: nat)
    requires Ordered(slots) && (Live(slots, h) ==> forall z: nat :: Live(slots, z) ==> slots[z].born <= slots[h].born)
    ensures forall z: nat :: !Reads(slots, z, h)
  {
    forall z: nat ensures !Reads(slots, z, h) {
      if Reads(slots, z, h) { ReadsOlder(slots, z, h); }
    }
  }

  /** The names there still are keep their values. */
  ghost predicate ValuesKept(a: seq<Slot>, b: seq<Slot>) {
    |a| == |b| && forall x: nat :: Exists(a, x) && Exists(b, x) && a[x].eh.Some? ==> b[x].eh.Some?
  }

  /** A table that made nothing keeps the book. */
  lemma EvolvesKept(run: Kernel, a: seq<Slot>, b: seq<Slot>, book: Book)
    requires Evolves(run, a, b) && ValuesKept(a, b) && Ordered(b) && Kept(a, book)
    ensures Kept(b, book)
  {
    hide Covered, Reads;
    forall x: nat | Live(b, x) ensures Live(a, x) && Later(run, a[x], b[x]) {}
    Unread(b, 0);
    forall h: nat | Exists(b, h) ensures h in book && Faithful(b, h, book[h]) {
      assert Later(run, a[h], b[h]) && Faithful(a, h, book[h]);
      CoveredBack(run, a, b, 0, h, book[h].holds);
    }
  }

  /** What the inputs of a recipe may keep live is among these stamps. */
  ghost predicate InputsBooked(slots: seq<Slot>, s: Slot, book: Book, stamps: set<nat>) {
    s.kind == NODE ==>
      && AllExist(slots, s.spec.ins)
      && forall k :: 0 <= k < |s.spec.ins| ==> s.spec.ins[k] in book && book[s.spec.ins[k]].holds <= stamps
  }

  /** What a slot that was just made reaches: itself, and what its inputs reached. */
  lemma CoveredNew(run: Kernel, a: seq<Slot>, b: seq<Slot>, h: nat, book: Book, stamps: set<nat>)
    requires |a| == |b| && (forall z: nat :: z < |a| && z != h ==> Later(run, a[z], b[z])) && Kept(a, book)
    requires (forall z: nat :: !Reads(b, z, h)) && Live(b, h) && b[h].born in stamps
    requires InputsBooked(a, b[h], book, stamps)
    ensures Covered(b, h, stamps)
  {
    forall y: nat | Live(b, y) && Reachable(b, h, y) ensures b[y].born in stamps {
      var path :| Way(b, h, y, path);
      if |path| > 1 {
        var x := path[1];
        assert Reads(b, path[0], path[1]);
        var k :| 0 <= k < |b[h].spec.ins| && b[h].spec.ins[k] == x;
        assert Way(b, x, y, path[1..]);
        WayBack(run, a, b, h, x, y);
        assert Later(run, a[y], b[y]) && Faithful(a, x, book[x]);
      }
    }
  }

  /** A book with the new slot in it. */
  lemma MadeKept(run: Kernel, a: seq<Slot>, b: seq<Slot>, h: nat, s: Slot, book: Book, acc: Account)
    requires Kept(a, book) && EvolvesBut(run, a, b, h, s) && ValuesKept(a, b) && Ordered(b)
    requires !Exists(a, h) && Exists(b, h) && OlderThan(a, s.born) && acc.id == s.born && acc.isParam == s.isParam
    requires (acc.valued ==> b[h].eh.Some?) && (b[h].kind == NODE && s.underParam ==> acc.taped)
    requires s.born in acc.holds
    requires InputsBooked(a, b[h], book, acc.holds)
    ensures Kept(b, book[h := acc])
  {
    hide Covered, Reads;
    forall x: nat | Live(b, x) && x != h ensures Live(a, x) && Later(run, a[x], b[x]) {}
    Unread(b, h);
    CoveredNew(run, a, b, h, book, acc.holds);
    forall x: nat | Exists(b, x) && x != h ensures x in book && Faithful(b, x, book[x]) {
      assert Faithful(a, x, book[x]);
      CoveredBack(run, a, b, h, x, book[x].holds);
    }
  }

  /** A plain value reaches only itself. */
  lemma CoveredPlain(slots: seq<Slot>, h: nat)
    requires Live(slots, h) && slots[h].kind == VALUE
    ensures Covered(slots, h, {slots[h].born})
  {
    forall y: nat | Live(slots, y) && Reachable(slots, h, y) ensures y == h {
      var path :| Way(slots, h, y, path);
      assert |path| > 1 ==> Reads(slots, path[0], path[1]);
    }
  }

  /** A handle that has its value now. */
  lemma ValuedKept(slots: seq<Slot>, h: nat, book: Book)
    requires Kept(slots, book) && Exists(slots, h) && WellFormed(slots[h]) && slots[h].eh.Some?
    ensures Kept(slots, book[h := Valued(book[h])])
  {
    assert Faithful(slots, h, book[h]);
    if slots[h].kind == VALUE { CoveredPlain(slots, h); }
  }

  // ---- how many are live ------------------------------------------------------------------------------------

  lemma {:induction false} EdgeFrom(slots: seq<Slot>, x: nat) returns (z: nat)
    requires Edges(slots)[x] > 0
    ensures z < |slots| && slots[z].kind == NODE && x in slots[z].spec.ins
  {
    var n := |slots| - 1;
    if x in InsOf(slots[n]) {
      z := n;
    } else {
      z := EdgeFrom(slots[..n], x);
    }
  }

  /** Every live slot is reached from one the program names. */
  lemma {:induction false} LiveReached(slots: seq<Slot>, x: nat, clock: nat) returns (h: nat)
    requires Sound(slots) && OlderThan(slots, clock) && Live(slots, x)
    ensures Exists(slots, h) && Reachable(slots, h, x)
    decreases clock - slots[x].born
  {
    if !slots[x].released {
      h := x;
      ReachableSelf(slots, x);
    } else {
      assert RefsAt(slots, x) == Edges(slots)[x] + NONE_DUE[x];
      var z := EdgeFrom(slots, x);
      assert InputsBelow(slots, z);
      var k :| 0 <= k < |slots[z].spec.ins| && slots[z].spec.ins[k] == x;
      h := LiveReached(slots, z, clock);
      ReachableNext(slots, h, z, x);
    }
  }

  lemma {:induction false} DistinctImage(slots: seq<Slot>, s: set<nat>, stamps: set<nat>)
    requires Distinct(slots) && s <= LiveSet(slots) && forall x :: x in s ==> x < |slots| && slots[x].born in stamps
    ensures |s| <= |stamps|
    decreases |s|
  {
    if s != {} {
      var x :| x in s;
      DistinctImage(slots, s - {x}, stamps - {slots[x].born});
    }
  }

  ghost function AllStamps(book: Book): set<nat> {
    set h, b | h in book && b in book[h].holds :: b
  }

  /** No more slots are live than the book has stamps. */
  lemma LiveFew(slots: seq<Slot>, book: Book, clock: nat)
    requires Sound(slots) && OlderThan(slots, clock) && Kept(slots, book)
    ensures |LiveSet(slots)| <= |AllStamps(book)|
  {
    forall x | x in LiveSet(slots) ensures slots[x].born in AllStamps(book) {
      var h := LiveReached(slots, x, clock);
      assert Faithful(slots, h, book[h]);
    }
    DistinctImage(slots, LiveSet(slots), AllStamps(book));
  }

  // ---- the engine's calls -----------------------------------------------------------------------------------

  lemma InvParts(run: Kernel, e: Engine)
    requires Inv(run, e)
    ensures Sound(e.slots) && OlderThan(e.slots, e.clock)
  {
  }

  lemma KeptNames(a: seq<Slot>, b: seq<Slot>)
    requires NamesKept(a, b)
    ensures ValuesKept(a, b)
  {
  }

  /** A closure is run: nothing is made. */
  lemma RunsKept(run: Kernel, e: Engine, e1: Engine, runs: nat, book: Book)
    requires Runs(run, e, e1, runs) && NamesKept(e.slots, e1.slots) && Inv(run, e1) && Kept(e.slots, book)
    ensures Kept(e1.slots, book)
  {
    hide Kept, Inv, NamesKept, Evolves;
    InvParts(run, e1);
    KeptNames(e.slots, e1.slots);
    EvolvesKept(run, e.slots, e1.slots, book);
  }

  lemma NewValueKept(run: Kernel, e: Engine, t: Tensor, made: bool, isParam: bool, book: Book)
    requires Inv(run, e) && Kept(e.slots, book) && (made ==> IsMade(t))
    ensures var (e1, h) := NewValue(e, t, made, isParam);
            h.Some? ==> e1.clock == e.clock + 1 && Kept(e1.slots, book[h.value := Plain(e.clock, isParam)])
  {
    hide Kept, EvolvesBut, Inv, SlotNew, NamesKept;
    NewValueMoves(run, e, t, made, isParam);
    NewValueMakes(run, e, t, made, isParam);
    NewValueKeepsNames(e, t, made, isParam);
    var (e1, h) := NewValue(e, t, made, isParam);
    if h.Some? {
      NewInv(run, e, e1);
      InvParts(run, e);
      InvParts(run, e1);
      KeptNames(e.slots, e1.slots);
      MadeKept(run, e.slots, e1.slots, h.value, ValueSlot(t, made, isParam, e.clock), book, Plain(e.clock, isParam));
    }
  }

  /** What the book should say of an operation on these handles. */
  ghost predicate Describes(e: Engine, graph: bool, ins: seq<nat>, book: Book, acc: Account) {
    && acc.id == e.clock && !acc.isParam && acc.valued == !graph && e.clock in acc.holds
    && (AnyUnderParam(e.slots, ins) ==> acc.taped)
    && (graph || acc.taped ==> forall k :: 0 <= k < |ins| ==> ins[k] in book && book[ins[k]].holds <= acc.holds)
  }

  lemma RunSpecKept(run: Kernel, e: Engine, graph: bool, spec: OpSpec, refused: bool, book: Book, acc: Account)
    requires Inv(run, e) && Kept(e.slots, book) && AllExist(e.slots, spec.ins)
    requires RunSpec(run, e, graph, spec, refused).0.exact && Describes(e, graph, spec.ins, book, acc)
    ensures var (e1, h) := RunSpec(run, e, graph, spec, refused);
            if h.Some? then e1.clock == e.clock + 1 && Kept(e1.slots, book[h.value := acc])
            else e1.clock == e.clock && Kept(e1.slots, book)
  {
    hide Kept, EvolvesBut, Evolves, Inv, RunSpec, NamesKept, Moves, AnyUnderParam;
    RunSpecMoves(run, e, graph, spec, refused);
    RunSpecMakes(run, e, graph, spec, refused);
    RunSpecKeepsNames(run, e, graph, spec, refused);
    var (e1, h) := RunSpec(run, e, graph, spec, refused);
    NewInv(run, e, e1);
    InvParts(run, e);
    InvParts(run, e1);
    KeptNames(e.slots, e1.slots);
    if h.Some? {
      var s := SpecSlot(run, e, graph, spec);
      SpecSlotIs(run, e, graph, spec);
      ButAt(run, e.slots, e1.slots, h.value, s);
      MadeKept(run, e.slots, e1.slots, h.value, s, book, acc);
    } else {
      EvolvesKept(run, e.slots, e1.slots, book);
    }
  }

  lemma SpecSlotIs(run: Kernel, e: Engine, graph: bool, spec: OpSpec)
    ensures var s := SpecSlot(run, e, graph, spec);
            && s.born == e.clock && !s.isParam && (s.kind == NODE ==> s.spec == spec)
            && (s.kind == NODE && s.underParam ==> AnyUnderParam(e.slots, spec.ins))
            && (s.kind == NODE ==> graph || AnyUnderParam(e.slots, spec.ins))
  {
    hide ForceAll, ValuesOf, AnyUnderParam, Evolves;
    ForceAllEvolves(run, e, spec.ins);
  }

  lemma ButAt(run: Kernel, a: seq<Slot>, b: seq<Slot>, h: nat, s: Slot)
    requires EvolvesBut(run, a, b, h, s)
    ensures Later(run, s, b[h])
  {
  }

  lemma FreeKept(run: Kernel, e: Engine, h: nat, book: Book)
    requires Inv(run, e) && Kept(e.slots, book) && Exists(e.slots, h)
    ensures Kept(FreeIn(e, h).slots, book - {h})
  {
    hide Kept, Inv, Free, Evolves, Moves;
    FreeMoves(run, e, h);
    FreeEvolves(run, e.slots, h);
    var b := Free(e.slots, h);
    FreedParts(run, e, h);
    forall x: nat | Exists(e.slots, x) && Exists(b, x) && e.slots[x].eh.Some? ensures b[x].eh.Some? {
      if x != h { FreeKeepsNames(e.slots, h, x); }
    }
    EvolvesKept(run, e.slots, b, book);
    DropKept(b, book, h);
  }

  lemma FreedParts(run: Kernel, e: Engine, h: nat)
    requires Moves(run, e, FreeIn(e, h), {h})
    ensures Ordered(Free(e.slots, h))
  {
  }

  lemma DropKept(slots: seq<Slot>, book: Book, h: nat)
    requires Kept(slots, book) && !Exists(slots, h)
    ensures Kept(slots, book - {h})
  {
  }

  // ---- tfb_step ---------------------------------------------------------------------------------------------

  lemma KeptAgree(slots: seq<Slot>, a: Book, b: Book)
    requires Kept(slots, a) && forall h: nat :: Exists(slots, h) && h in a ==> h in b && b[h] == a[h]
    ensures Kept(slots, b)
  {
  }

  lemma SameWays(a: seq<Slot>, h: nat, x: nat, stamps: set<nat>)
    requires h < |a| && Covered(a, x, stamps)
    ensures Covered(a[h := a[h].(isParam := true)], x, stamps)
  {
    var b := a[h := a[h].(isParam := true)];
    forall y: nat | Live(b, y) && Reachable(b, x, y) ensures b[y].born in stamps {
      var path :| Way(b, x, y, path);
      forall i | 0 <= i < |path| - 1 ensures Reads(a, path[i], path[i + 1]) {
        assert Reads(b, path[i], path[i + 1]);
      }
      assert Way(a, x, y, path);
    }
  }

  lemma MarkedKept(slots: seq<Slot>, h: nat, book: Book)
    requires Kept(slots, book) && Exists(slots, h)
    ensures Kept(slots[h := slots[h].(isParam := true)], book[h := book[h].(isParam := true)])
  {
    hide Covered;
    var b := slots[h := slots[h].(isParam := true)];
    forall x: nat | Exists(b, x) ensures Faithful(b, x, book[h := book[h].(isParam := true)][x]) {
      assert Faithful(slots, x, book[x]);
      SameWays(slots, h, x, book[x].holds);
    }
  }

  /** A parameter made of a node: with its value it keeps no recipe. */
  lemma MarkKept(run: Kernel, e: Engine, h: nat, book: Book)
    requires Inv(run, e) && Kept(e.slots, book) && Exists(e.slots, h) && h in book
    ensures var b, acc := MarkParam(e.slots, h), book[h].(isParam := true);
            Kept(b, book[h := acc]) && (acc.valued ==> Kept(b, book[h := Valued(acc)]))
  {
    hide Kept, Inv, DropStructure, Evolves, NamesKept, Moves;
    var s1, b := e.slots[h := e.slots[h].(isParam := true)], MarkParam(e.slots, h);
    var book1 := book[h := book[h].(isParam := true)];
    MarkedKept(e.slots, h, book);
    MarkParamMoves(run, e, h);
    var e1 := e.(slots := b);
    MovesParts(run, e, e1, h);
    DropEvolves(run, s1, h);
    DropKeepsNames(s1, h);
    SameEvolves(run, s1);
    SameNames(s1);
    KeptNames(s1, b);
    EvolvesKept(run, s1, b, book1);
    if book1[h].valued {
      HasValue(b, h, book1);
      ValuedKept(b, h, book1);
      assert book1[h := Valued(book1[h])] == book[h := Valued(book1[h])];
    }
  }

  lemma MovesParts(run: Kernel, e: Engine, e1: Engine, h: nat)
    requires Moves(run, e, e1, {h}) && h < |e1.slots|
    ensures Ordered(e1.slots) && WellFormed(e1.slots[h]) && Inv(run, e1)
  {
  }

  lemma HasValue(slots: seq<Slot>, h: nat, book: Book)
    requires Kept(slots, book) && Exists(slots, h) && h in book && book[h].valued
    ensures slots[h].eh.Some?
  {
    assert Faithful(slots, h, book[h]);
  }

  /** An operation on `a` and a temporary, which goes again. */
  lemma RunWithKept(run: Kernel, e: Engine, graph: bool, sig: OpSig, a: nat, tmp: nat, book: Book, acc: Account)
    requires Inv(run, e) && Kept(e.slots, book) && Exists(e.slots, a) && Exists(e.slots, tmp)
    requires RunWith(run, e, graph, sig, a, tmp).0.exact && RunWith(run, e, graph, sig, a, tmp).1.Some?
    requires a in book && tmp in book && acc.taped
    requires acc == Account(e.clock, {e.clock} + book[a].holds + book[tmp].holds, !graph, true, false)
    ensures var (e1, h) := RunWith(run, e, graph, sig, a, tmp);
            && Inv(run, e1) && e1.clock == e.clock + 1 && h.value != tmp && Exists(e1.slots, h.value)
            && Kept(e1.slots, book[h.value := acc] - {tmp})
            && forall x: nat :: Exists(e.slots, x) && x != tmp ==> Exists(e1.slots, x) && x != h.value
  {
    hide Kept, Inv, RunSpec, Moves, AnyUnderParam;
    var spec := OpSpec(sig, [a, tmp]);
    assert AllExist(e.slots, spec.ins);
    assert Describes(e, graph, spec.ins, book, acc);
    RunSpecKept(run, e, graph, spec, false, book, acc);
    RunSpecMoves(run, e, graph, spec, false);
    RunSpecKeepsNames(run, e, graph, spec, false);
    var (e1, h) := RunSpec(run, e, graph, spec, false);
    NewInv(run, e, e1);
    FreeKept(run, e1, tmp, book[h.value := acc]);
    FreeMoves(run, e1, tmp);
    FreedInv(run, e1, tmp);
    FreeSpares(e1, tmp);
  }

  lemma FreedInv(run: Kernel, e: Engine, h: nat)
    requires Moves(run, e, FreeIn(e, h), {h})
    ensures Inv(run, FreeIn(e, h))
  {
  }

  /** What the book should say of a step. */
  function StepAccount(clock: nat, graph: bool, w: Account, g: Account): Account {
    if graph then Account(clock + 2, {clock, clock + 1, clock + 2} + w.holds + g.holds, false, true, true)
    else Account(clock + 2, {clock + 2}, true, true, true)
  }

  function ScaledAccount(clock: nat, graph: bool, g: Account): Account {
    Account(clock + 1, {clock + 1} + g.holds + {clock}, !graph, true, false)
  }

  /** The first half of a step: the gradient scaled, and the learning rate's slot released. */
  lemma ScaledKept(run: Kernel, e: Engine, graph: bool, w: nat, g: nat, lr: Tensor, book: Book)
    requires Inv(run, e) && Kept(e.slots, book) && Exists(e.slots, w) && Exists(e.slots, g) && g in book
    requires var (e1, s) := NewValue(e, lr, false, false);
             s.Some? && var (e2, p) := RunWith(run, e1, graph, MUL, g, s.value); e2.exact && p.Some?
    ensures var (e1, s) := NewValue(e, lr, false, false);
            var (e2, p) := RunWith(run, e1, graph, MUL, g, s.value);
            && Inv(run, e2) && e2.clock == e.clock + 2 && Exists(e2.slots, p.value)
            && Exists(e2.slots, w) && w != p.value
            && Kept(e2.slots, book[p.value := ScaledAccount(e.clock, graph, book[g])])
  {
    hide Kept, Inv, RunWith, NewValue, Moves;
    NewValueKept(run, e, lr, false, false, book);
    NewValueMoves(run, e, lr, false, false);
    var (e1, s) := NewValue(e, lr, false, false);
    NewInv(run, e, e1);
    StandsStill(run, e, e1, {}, w);
    StandsStill(run, e, e1, {}, g);
    var book1, acc := book[s.value := Plain(e.clock, false)], ScaledAccount(e.clock, graph, book[g]);
    RunWithKept(run, e1, graph, MUL, g, s.value, book1, acc);
    var (e2, p) := RunWith(run, e1, graph, MUL, g, s.value);
    KeptAgree(e2.slots, book1[p.value := acc] - {s.value}, book[p.value := acc]);
  }

  /** The second: the difference taken, the scaled gradient released, and the result marked. */
  lemma DifferenceKept(run: Kernel, e: Engine, graph: bool, w: nat, p: nat, book: Book, scaled: Account)
    requires Inv(run, e) && Kept(e.slots, book[p := scaled]) && Exists(e.slots, w) && Exists(e.slots, p) && w != p
    requires w in book && RunWith(run, e, graph, SUB, w, p).0.exact && RunWith(run, e, graph, SUB, w, p).1.Some?
    ensures var (e1, q) := RunWith(run, e, graph, SUB, w, p);
            var acc := Account(e.clock, {e.clock} + book[w].holds + scaled.holds, !graph, true, true);
            && e1.clock == e.clock + 1 && q.value < |e1.slots|
            && Kept(MarkParam(e1.slots, q.value), book[q.value := if graph then acc else Valued(acc)])
  {
    hide Kept, Inv, RunWith, MarkParam;
    var book1 := book[p := scaled];
    var acc := Account(e.clock, {e.clock} + book[w].holds + scaled.holds, !graph, true, false);
    RunWithKept(run, e, graph, SUB, w, p, book1, acc);
    var (e1, q) := RunWith(run, e, graph, SUB, w, p);
    var book2 := book1[q.value := acc] - {p};
    MarkKept(run, e1, q.value, book2);
    var marked := if graph then acc.(isParam := true) else Valued(acc.(isParam := true));
    KeptAgree(MarkParam(e1.slots, q.value), book2[q.value := marked], book[q.value := marked]);
  }

  lemma MakeStepKept(run: Kernel, e: Engine, graph: bool, w: nat, g: nat, lr: Tensor, book: Book)
    requires Inv(run, e) && Kept(e.slots, book) && Exists(e.slots, w) && Exists(e.slots, g) && w in book && g in book
    requires MakeStep(run, e, graph, w, g, lr).0.exact && MakeStep(run, e, graph, w, g, lr).1.Some?
    ensures var (e1, h) := MakeStep(run, e, graph, w, g, lr);
            e1.clock == e.clock + 3 && Kept(e1.slots, book[h.value := StepAccount(e.clock, graph, book[w], book[g])])
  {
    hide Kept, Inv, RunWith, NewValue, MarkParam;
    var (e1, s) := NewValue(e, lr, false, false);
    ScaledKept(run, e, graph, w, g, lr, book);
    var (e2, p) := RunWith(run, e1, graph, MUL, g, s.value);
    DifferenceKept(run, e2, graph, w, p.value, book, ScaledAccount(e.clock, graph, book[g]));
    StepSums(e.clock, graph, book[w], book[g]);
  }

  lemma StepSums(clock: nat, graph: bool, w: Account, g: Account)
    ensures var held := {clock + 2} + w.holds + ScaledAccount(clock, graph, g).holds;
            var acc := Account(clock + 2, held, !graph, true, true);
            StepAccount(clock, graph, w, g) == if graph then acc else Valued(acc)
  {
  }

  // ---- names and the ledger ---------------------------------------------------------------------------------

  /** The ledger's accounts are the book's; what the program holds under no name is lost. */
  ghost predicate Ties(env: map<Name, nat>, l: Ledger, book: Book) {
    && env.Keys == l.accounts.Keys
    && (forall x :: x in env ==> env[x] in book && book[env[x]] == l.accounts[x])
    && (forall h :: h in book && h !in env.Values ==> book[h].holds <= l.lost)
  }

  ghost predicate Injective(env: map<Name, nat>) {
    forall x, y :: x in env && y in env && env[x] == env[y] ==> x == y
  }

  lemma OpenTies(env: map<Name, nat>, l: Ledger, book: Book, x: Name, h: nat, acc: Account)
    requires Ties(env, l, book) && h !in env.Values
    ensures Ties(env[x := h], Opened(l, x, acc), book[h := acc])
  {
    var env1, book1 := env[x := h], book[h := acc];
    forall y | y in env && y != x ensures env[y] in env1.Values { assert env1[y] == env[y]; }
    forall k | k in book1 && k !in env1.Values ensures book1[k].holds <= l.lost + HeldBy(l, x) {
      assert env1[x] == h;
      if k in env.Values {
        var y :| y in env && env[y] == k;
      }
    }
  }

  lemma ForgetTies(env: map<Name, nat>, l: Ledger, book: Book, xs: set<Name>)
    requires Ties(env, l, book)
    ensures Ties(env - xs, l.(accounts := l.accounts - xs,
      lost := l.lost + (set x, b | x in xs && x in l.accounts && b in l.accounts[x].holds :: b)), book)
  {
    var lost := l.lost + (set x, b | x in xs && x in l.accounts && b in l.accounts[x].holds :: b);
    forall y | y in env && y !in xs ensures env[y] in (env - xs).Values { assert (env - xs)[y] == env[y]; }
    forall k | k in book && k !in (env - xs).Values ensures book[k].holds <= lost {
      if k in env.Values {
        var y :| y in env && env[y] == k;
      }
    }
  }

  lemma ForgetOne(env: map<Name, nat>, l: Ledger, book: Book, x: Name)
    requires Ties(env, l, book)
    ensures Ties(env - {x}, Forgotten(l, x), book)
  {
    ForgetTies(env, l, book, {x});
    assert (set y, b | y in {x} && y in l.accounts && b in l.accounts[y].holds :: b) == HeldBy(l, x);
  }

  lemma ReleaseTies(env: map<Name, nat>, l: Ledger, book: Book, x: Name)
    requires Ties(env, l, book) && Injective(env) && x in env
    ensures Ties(env - {x}, Released(l, x), book - {env[x]})
  {
    forall k | k in env.Values && k != env[x] ensures k in (env - {x}).Values {
      var y :| y in env && env[y] == k;
      assert (env - {x})[y] == k;
    }
  }

  lemma ValueTies(env: map<Name, nat>, l: Ledger, book: Book, x: Name)
    requires Ties(env, l, book) && Injective(env) && x in env
    ensures Ties(env, ValuedIn(l, x), book[env[x] := Valued(book[env[x]])])
  {
  }

  lemma OwedStamps(env: map<Name, nat>, l: Ledger, book: Book)
    requires Ties(env, l, book)
    ensures |AllStamps(book)| <= |Owed(l)|
  {
    forall b | b in AllStamps(book) ensures b in Owed(l) {
      var h :| h in book && b in book[h].holds;
      if h in env.Values { var x :| x in env && env[x] == h; }
    }
    SubsetCount(AllStamps(book), Owed(l));
  }

  // ---- one command ------------------------------------------------------------------------------------------

  /** The ledger is in step with the engine. */
  ghost predicate Accounted(w: World, l: Ledger, book: Book) {
    l.clock == w.e.clock && l.graph == w.graph && Kept(w.e.slots, book) && Ties(w.env, l, book)
  }

  /** No more slots are live than the ledger owes. */
  lemma LiveWithinOwed(run: Kernel, w: World, l: Ledger, book: Book)
    requires Inv(run, w.e) && Accounted(w, l, book)
    ensures |LiveSet(w.e.slots)| <= |Owed(l)|
  {
    hide Kept, Ties;
    InvParts(run, w.e);
    LiveFew(w.e.slots, book, w.e.clock);
    OwedStamps(w.env, l, book);
  }

  lemma SimParts(run: Kernel, w: World, r: Reference)
    requires Simulates(run, w, r)
    ensures Inv(run, w.e) && Injective(w.env) && forall x :: x in w.env ==> Exists(w.e.slots, w.env[x])
  {
    forall x | x in w.env ensures Exists(w.e.slots, w.env[x]) { NameExists(run, w, r, x); }
  }

  lemma NotNamedYet(w: World, h: nat)
    requires !Exists(w.e.slots, h) && forall x :: x in w.env ==> Exists(w.e.slots, w.env[x])
    ensures h !in w.env.Values
  {
  }

  lemma NewAccounted(run: Kernel, w: World, r: Reference, l: Ledger, book: Book, x: Name, t: Tensor, made: bool, n: nat,
                     runs: nat) returns (book': Book)
    requires KernelFits(run) && Simulates(run, w, r) && Roomy(run, w.e, n, runs) && Accounted(w, l, book)
    requires TensorFits(t) && n + 1 <= MAX_LIVE && n + 1 < |w.e.slots|
    requires made ==> IsMade(t) && |t.data| <= MAX_PRINTED && AllWide(t.data)
    ensures var (e1, h) := NewValue(w.e, t, made, false);
            Accounted(Bind(w, x, e1, h), Opened(l, x, Plain(l.clock, false)), book')
  {
    hide Kept, Ties, Roomy, Simulates, NewValue, Inv, TensorFits;
    SimParts(run, w, r);
    NewValueRoomy(run, w.e, t, made, false, n, runs);
    NewValueKept(run, w.e, t, made, false, book);
    var h := NewValue(w.e, t, made, false).1;
    NotNamedYet(w, h.value);
    OpenTies(w.env, l, book, x, h.value, Plain(l.clock, false));
    book' := book[h.value := Plain(l.clock, false)];
  }

  lemma OpEntryDescribes(run: Kernel, w: World, r: Reference, l: Ledger, book: Book, ys: seq<Name>)
    requires Simulates(run, w, r) && Accounted(w, l, book) && Names(w.env, ys).Some?
    ensures AllOpen(l, ys) && Describes(w.e, w.graph, Names(w.env, ys).value, book, OpEntry(l, ys))
  {
    hide Covered, Inv, Simulates;
    SimParts(run, w, r);
    var ins: seq<nat> := Names(w.env, ys).value;
    forall k | 0 <= k < |ys| ensures ys[k] in l.accounts && ins[k] in book && book[ins[k]] == l.accounts[ys[k]] {
      assert ins[k] == w.env[ys[k]];
    }
    var acc := OpEntry(l, ys);
    if AnyUnderParam(w.e.slots, ins) {
      var k :| 0 <= k < |ins| && ins[k] < |w.e.slots| &&
        (w.e.slots[ins[k]].isParam || (w.e.slots[ins[k]].kind == NODE && w.e.slots[ins[k]].underParam));
      assert Faithful(w.e.slots, ins[k], book[ins[k]]);
      assert l.accounts[ys[k]].isParam || l.accounts[ys[k]].taped;
    }
    forall k | 0 <= k < |ins| && (w.graph || acc.taped) ensures book[ins[k]].holds <= acc.holds {
      assert l.accounts[ys[k]].holds <= AllHeld(l, ys);
    }
  }

  lemma OpAccounted(run: Kernel, w: World, r: Reference, l: Ledger, book: Book, c: Cmd, n: nat, runs: nat)
    returns (book': Book)
    requires KernelFits(run) && Simulates(run, w, r) && Roomy(run, w.e, n, runs) && Accounted(w, l, book)
    requires HasRoom(w, c, n, runs) && c.Op?
    ensures Accounted(WorldStep(run, w, c), LedgerStep(l, c), book')
  {
    hide Kept, Ties, Roomy, Simulates, RunSpec, Inv, SigFits, Describes, OpEntry;
    SimParts(run, w, r);
    book' := book;
    TiesOpen(w.env, l, book, c.ys);
    if Names(w.env, c.ys).Some? {
      var spec := OpSpec(c.sig, Names(w.env, c.ys).value);
      NamesExist(run, w, r, c.ys);
      RunSpecRoomy(run, w.e, w.graph, spec, c.refused, n, runs);
      OpEntryDescribes(run, w, r, l, book, c.ys);
      var (e1, h) := RunSpec(run, w.e, w.graph, spec, c.refused);
      Spotless(run, e1, n + 1, runs + SpecLacks(w.e, w.graph, spec));
      RunSpecKept(run, w.e, w.graph, spec, c.refused, book, OpEntry(l, c.ys));
      RunSpecKeepsNames(run, w.e, w.graph, spec, c.refused);
      if h.Some? {
        NotNamedYet(w, h.value);
        OpEntryId(l, c.ys);
        OpenTies(w.env, l, book, c.x, h.value, OpEntry(l, c.ys));
        book' := book[h.value := OpEntry(l, c.ys)];
      } else {
        ForgetOne(w.env, l, book, c.x);
      }
    } else {
      ForgetOne(w.env, l, book, c.x);
    }
  }

  lemma OpEntryId(l: Ledger, ys: seq<Name>)
    requires AllOpen(l, ys)
    ensures OpEntry(l, ys).id == l.clock
  {
  }

  lemma TiesOpen(env: map<Name, nat>, l: Ledger, book: Book, ys: seq<Name>)
    requires Ties(env, l, book)
    ensures Names(env, ys).Some? <==> AllOpen(l, ys)
    ensures forall x :: x in env ==> env[x] in book && book[env[x]] == l.accounts[x]
    ensures forall x :: x in env <==> x in l.accounts
  {
  }

  /** A name forced: it has its value now. */
  lemma ForceAccounted(run: Kernel, w: World, r: Reference, l: Ledger, book: Book, x: Name, n: nat, runs: nat)
    returns (book': Book)
    requires KernelFits(run) && Simulates(run, w, r) && Roomy(run, w.e, n, runs) && Accounted(w, l, book)
    requires x in w.env && runs + Lacks(w.e.slots, w.env[x]) <= MAX_ENTRY
    ensures Accounted(w.(e := Force(run, w.e, w.env[x]).0), ValuedIn(l, x), book')
  {
    hide Kept, Ties, Roomy, Simulates, Force, Inv, Evolves, NamesKept, Moves;
    var h := w.env[x];
    SimParts(run, w, r);
    TiesOpen(w.env, l, book, [x]);
    ForceRoomy(run, w.e, h, n, runs);
    ForceEvolves(run, w.e, h);
    ForceKeepsNames(run, w.e, h);
    var e1 := Force(run, w.e, h).0;
    NewInv(run, w.e, e1);
    RunsKept(run, w.e, e1, Lacks(w.e.slots, h), book);
    StandsStill(run, w.e, e1, {}, h);
    InvParts(run, e1);
    assert WellFormed(e1.slots[h]);
    ValuedKept(e1.slots, h, book);
    ValueTies(w.env, l, book, x);
    book' := book[h := Valued(book[h])];
  }

  /** A value given a new name, where every name is still there. */
  lemma NamedAccounted(run: Kernel, w: World, l: Ledger, book: Book, x: Name, t: Tensor, isParam: bool, n: nat,
                       runs: nat) returns (book': Book)
    requires KernelFits(run) && Roomy(run, w.e, n, runs) && Accounted(w, l, book)
    requires forall y :: y in w.env ==> Exists(w.e.slots, w.env[y])
    requires TensorFits(t) && n + 1 <= MAX_LIVE && n + 1 < |w.e.slots|
    ensures var (e1, h) := NewValue(w.e, t, false, isParam);
            Accounted(Bind(w, x, e1, h), Opened(l, x, Plain(l.clock, isParam)), book')
  {
    hide Kept, Ties, Roomy, NewValue, Inv, TensorFits, NamesKept;
    RoomyInv(run, w.e, n, runs);
    NewValueRoomy(run, w.e, t, false, isParam, n, runs);
    NewValueKept(run, w.e, t, false, isParam, book);
    var h := NewValue(w.e, t, false, isParam).1;
    NotNamedYet(w, h.value);
    OpenTies(w.env, l, book, x, h.value, Plain(l.clock, isParam));
    book' := book[h.value := Plain(l.clock, isParam)];
  }

  lemma ParameterBound(run: Kernel, w: World, r: Reference, l: Ledger, book: Book, x: Name, y: Name, n: nat, runs: nat)
    returns (book': Book)
    requires KernelFits(run) && Simulates(run, w, r) && Roomy(run, w.e, n, runs) && Accounted(w, l, book)
    requires y in w.env && n + 1 <= MAX_LIVE && n + 1 < |w.e.slots| && runs + Lacks(w.e.slots, w.env[y]) <= MAX_ENTRY
    ensures var (e1, h) := MakeParameter(run, w.e, w.env[y]);
            Accounted(Bind(w, x, e1, h), Opened(ValuedIn(l, y), x, Plain(l.clock, true)), book')
  {
    hide Accounted, Roomy, Simulates, Force, NewValue, Inv, TensorFits, Lacks, KernelFits, ReadValue, Opened;
    var h := w.env[y];
    SimParts(run, w, r);
    var book1 := ForceAccounted(run, w, r, l, book, y, n, runs);
    var e1, v := ForcedValue(run, w, h, n, runs);
    book' := NamedAccounted(run, w.(e := e1), ValuedIn(l, y), book1, x, v, true, n, runs + Lacks(w.e.slots, h));
    assert ValuedIn(l, y).clock == l.clock;
  }

  lemma ParameterAccounted(run: Kernel, w: World, r: Reference, l: Ledger, book: Book, c: Cmd, n: nat, runs: nat)
    returns (book': Book)
    requires KernelFits(run) && Simulates(run, w, r) && Roomy(run, w.e, n, runs) && Accounted(w, l, book)
    requires HasRoom(w, c, n, runs) && c.Parameter?
    ensures Accounted(WorldStep(run, w, c), LedgerStep(l, c), book')
  {
    hide Kept, Ties, Roomy, Simulates, MakeParameter, KernelFits, Lacks, Opened;
    TiesOpen(w.env, l, book, []);
    if c.y in w.env {
      book' := ParameterBound(run, w, r, l, book, c.x, c.y, n, runs);
    } else {
      ForgetOne(w.env, l, book, c.x);
      book' := book;
    }
  }

  /** What a name's value is when it has been forced, and what is still there. */
  lemma ForcedValue(run: Kernel, w: World, h: nat, n: nat, runs: nat) returns (e1: Engine, v: Tensor)
    requires KernelFits(run) && Roomy(run, w.e, n, runs) && Exists(w.e.slots, h)
    requires runs + Lacks(w.e.slots, h) <= MAX_ENTRY && forall x :: x in w.env ==> Exists(w.e.slots, w.env[x])
    ensures e1 == Force(run, w.e, h).0 && ReadValue(run, w.e, h) == (e1, Some(v)) && |e1.slots| == |w.e.slots|
    ensures Roomy(run, e1, n, runs + Lacks(w.e.slots, h)) && TensorFits(v)
    ensures forall x :: x in w.env ==> Exists(e1.slots, w.env[x])
  {
    hide Roomy, Force, Inv, Moves, TensorFits, Lacks, KernelFits;
    ForceRoomy(run, w.e, h, n, runs);
    e1 := Force(run, w.e, h).0;
    v := e1.slots[h].eh.value;
    StillNamed(run, w, e1);
    StandsStill(run, w.e, e1, {}, h);
    ValueFits(run, e1, h, n, runs + Lacks(w.e.slots, h));
    Widths(run, w.e, e1);
  }

  lemma StillNamed(run: Kernel, w: World, e1: Engine)
    requires Moves(run, w.e, e1, {}) && forall x :: x in w.env ==> Exists(w.e.slots, w.env[x])
    ensures forall x :: x in w.env ==> Exists(e1.slots, w.env[x])
  {
    forall x | x in w.env ensures Exists(e1.slots, w.env[x]) { StandsStill(run, w.e, e1, {}, w.env[x]); }
  }

  lemma StepBound(run: Kernel, w: World, r: Reference, l: Ledger, book: Book, x: Name, p: Name, g: Name, lr: Tensor,
                  n: nat, runs: nat) returns (book': Book)
    requires KernelFits(run) && Simulates(run, w, r) && Roomy(run, w.e, n, runs) && Accounted(w, l, book)
    requires p in w.env && g in w.env && TensorFits(lr) && n + 3 <= MAX_LIVE && n + 3 < |w.e.slots|
    requires runs + StepLacks(w.e, w.graph, w.env[p], w.env[g]) <= MAX_ENTRY
    ensures var (e1, h) := MakeStep(run, w.e, w.graph, w.env[p], w.env[g], lr);
            && p in l.accounts && g in l.accounts
            && Accounted(Bind(w, x, e1, h), Opened(l, x, StepEntry(l, p, g)), book')
  {
    hide Kept, Ties, Roomy, Simulates, MakeStep, Inv, Moves, TensorFits, KernelFits, Den;
    SimParts(run, w, r);
    TiesOpen(w.env, l, book, []);
    var hp, hg := w.env[p], w.env[g];
    MakeStepRoomy(run, w.e, w.graph, hp, hg, lr, n, runs);
    MakeStepMoves(run, w.e, w.graph, hp, hg, lr);
    var (e1, h) := MakeStep(run, w.e, w.graph, hp, hg, lr);
    Spotless(run, e1, n + 3, runs + StepLacks(w.e, w.graph, hp, hg));
    MakeStepKept(run, w.e, w.graph, hp, hg, lr, book);
    NotNamedYet(w, h.value);
    OpenTies(w.env, l, book, x, h.value, StepEntry(l, p, g));
    book' := book[h.value := StepEntry(l, p, g)];
  }

  lemma StepAccounted(run: Kernel, w: World, r: Reference, l: Ledger, book: Book, c: Cmd, n: nat, runs: nat)
    returns (book': Book)
    requires KernelFits(run) && Simulates(run, w, r) && Roomy(run, w.e, n, runs) && Accounted(w, l, book)
    requires HasRoom(w, c, n, runs) && c.Step?
    ensures Accounted(WorldStep(run, w, c), LedgerStep(l, c), book')
  {
    hide Kept, Ties, Roomy, Simulates, MakeStep, TensorFits, KernelFits, Opened, StepEntry, StepLacks;
    TiesOpen(w.env, l, book, []);
    if c.w in w.env && c.g in w.env {
      book' := StepBound(run, w, r, l, book, c.x, c.w, c.g, c.lr, n, runs);
    } else {
      ForgetOne(w.env, l, book, c.x);
      book' := book;
    }
  }

  lemma {:induction false} BindAllAccounted(run: Kernel, w: World, r: Reference, l: Ledger, book: Book, xs: seq<Name>,
                                            ts: seq<Tensor>, n: nat, runs: nat) returns (book': Book)
    requires KernelFits(run) && Simulates(run, w, r) && Roomy(run, w.e, n, runs) && Accounted(w, l, book)
    requires |xs| == |ts| && n + |xs| <= MAX_LIVE && n + |xs| < |w.e.slots|
    requires forall k :: 0 <= k < |ts| ==> TensorFits(ts[k])
    ensures Accounted(BindAll(w, xs, ts), OpenedAll(l, xs), book')
    decreases |xs|
  {
    hide Accounted, Roomy, Simulates, NewValue, TensorFits;
    book' := book;
    if xs != [] {
      var book1 := NewAccounted(run, w, r, l, book, xs[0], ts[0], false, n, runs);
      NewValueRoomy(run, w.e, ts[0], false, false, n, runs);
      NewWidths(w.e, ts[0]);
      SimNew(run, w, r, xs[0], ts[0], false);
      var (e1, h) := NewValue(w.e, ts[0], false, false);
      book' := BindAllAccounted(run, Bind(w, xs[0], e1, h), RefBind(r, xs[0], Some(ts[0]), false),
        Opened(l, xs[0], Plain(l.clock, false)), book1, xs[1..], ts[1..], n + 1, runs);
    }
  }

  lemma GradOpenIff(run: Kernel, w: World, r: Reference, l: Ledger, book: Book, c: Cmd)
    requires Simulates(run, w, r) && Accounted(w, l, book) && c.Grad?
    ensures GradAsked(w, c) <==> GradOpen(l, c)
  {
    hide Covered, Inv, Simulates;
    SimParts(run, w, r);
    forall x | x in w.env ensures x in l.accounts && w.e.slots[w.env[x]].isParam == l.accounts[x].isParam {
      assert Faithful(w.e.slots, w.env[x], book[w.env[x]]);
    }
  }

  lemma GradAccounted(run: Kernel, w: World, r: Reference, l: Ledger, book: Book, c: Cmd, n: nat, runs: nat)
    returns (book': Book)
    requires KernelFits(run) && Simulates(run, w, r) && Roomy(run, w.e, n, runs) && Accounted(w, l, book)
    requires HasRoom(w, c, n, runs) && c.Grad?
    ensures Accounted(WorldStep(run, w, c), LedgerStep(l, c), book')
  {
    hide Kept, Ties, Roomy, Simulates, RunWalk, Inv, Moves, TensorFits, BindAll, Evolves, NamesKept;
    hide GradAsked, GradOpen;
    SimParts(run, w, r);
    GradOpenIff(run, w, r, l, book, c);
    if GradAsked(w, c) {
      var loss, ps, answered := GradParts(w, c);
      if answered {
        RunWalkRoomy(run, w.e, loss, ps, n, runs);
        RunWalkEvolves(run, w.e, loss, ps);
        RunWalkKeepsNames(run, w.e, loss, ps);
        var e1 := RunWalk(run, w.e, loss, ps).0;
        NewInv(run, w.e, e1);
        Widths(run, w.e, e1);
        RunsKept(run, w.e, e1, 1, book);
        NotFull(run, w.e, n, runs);
        SimMoves(run, w, r, e1);
        book' := BindAllAccounted(run, w.(e := e1), r, l, book, c.xs, c.answers, n, runs + 1);
      } else {
        book' := BindAllAccounted(run, w, r, l, book, c.xs, c.answers, n, runs);
      }
    } else {
      ForgetTies(w.env, l, book, set x | x in c.xs);
      book' := book;
      SameForgotten(l, c.xs);
    }
  }

  lemma SameForgotten(l: Ledger, xs: seq<Name>)
    ensures var gone := set x | x in xs;
            ForgottenAll(l, xs) == l.(accounts := l.accounts - gone,
              lost := l.lost + (set x, b | x in gone && x in l.accounts && b in l.accounts[x].holds :: b))
  {
    var gone := set x | x in xs;
    assert (set x, b | x in gone && x in l.accounts && b in l.accounts[x].holds :: b)
        == (set x, b | x in xs && x in l.accounts && b in l.accounts[x].holds :: b);
  }

  lemma NotFull(run: Kernel, e: Engine, n: nat, runs: nat)
    requires Roomy(run, e, n, runs)
    ensures !e.full
  {
  }

  /** The handles a gradient is asked of, and whether a closure is run for it. */
  lemma GradParts(w: World, c: Cmd) returns (loss: nat, ps: Option<seq<nat>>, answered: bool)
    requires c.Grad? && GradAsked(w, c)
    ensures c.loss in w.env && loss == w.env[c.loss] && Exists(w.e.slots, loss) && ps == Names(w.env, c.ps)
    ensures answered <==> w.e.slots[loss].kind == NODE && w.e.slots[loss].underParam
    ensures ps.Some? && |ps.value| <= MAX_PARAM && |c.xs| == |c.answers|
  {
    loss, ps := w.env[c.loss], Names(w.env, c.ps);
    answered := w.e.slots[loss].kind == NODE && w.e.slots[loss].underParam;
  }

  lemma ReleaseAccounted(run: Kernel, w: World, r: Reference, l: Ledger, book: Book, c: Cmd) returns (book': Book)
    requires Simulates(run, w, r) && Accounted(w, l, book) && c.Release?
    ensures Accounted(WorldStep(run, w, c), LedgerStep(l, c), book')
  {
    hide Kept, Ties, Simulates, Inv, FreeIn;
    SimParts(run, w, r);
    TiesOpen(w.env, l, book, []);
    if c.x in w.env {
      FreeKept(run, w.e, w.env[c.x], book);
      ReleaseTies(w.env, l, book, c.x);
      book' := book - {w.env[c.x]};
      SameClock(w.e, w.env[c.x]);
    } else {
      assert l.accounts - {c.x} == l.accounts;
      book' := book;
    }
  }

  lemma SameClock(e: Engine, h: nat)
    ensures FreeIn(e, h).clock == e.clock
  {
  }

  lemma ReadAccounted(run: Kernel, w: World, r: Reference, l: Ledger, book: Book, c: Cmd, n: nat, runs: nat)
    returns (book': Book)
    requires KernelFits(run) && Simulates(run, w, r) && Roomy(run, w.e, n, runs) && Accounted(w, l, book)
    requires HasRoom(w, c, n, runs) && c.Read?
    ensures Accounted(WorldStep(run, w, c), LedgerStep(l, c), book')
  {
    hide Kept, Ties, Roomy, Simulates, Force;
    TiesOpen(w.env, l, book, []);
    book' := book;
    if c.x in w.env { book' := ForceAccounted(run, w, r, l, book, c.x, n, runs); }
  }

  lemma ModeTies(env: map<Name, nat>, l: Ledger, book: Book, graph: bool)
    requires Ties(env, l, book)
    ensures Ties(env, l.(graph := graph), book)
  {
  }

  /** Every command keeps the ledger in step. */
  lemma CommandAccounted(run: Kernel, w: World, r: Reference, l: Ledger, book: Book, c: Cmd, n: nat, runs: nat)
    returns (book': Book)
    requires KernelFits(run) && Simulates(run, w, r) && Roomy(run, w.e, n, runs) && Accounted(w, l, book)
    requires HasRoom(w, c, n, runs)
    ensures Accounted(WorldStep(run, w, c), LedgerStep(l, c), book')
  {
    hide Kept, Ties, Roomy, Simulates, NewValue, TensorFits, MakeStep, MakeGrad, MakeParameter, ReadValue;
    hide RunSpec, FreeIn;
    match c
    case SetMode(graph) =>
      ModeTies(w.env, l, book, graph);
      book' := book;
    case Data(x, t) => book' := NewAccounted(run, w, r, l, book, x, t, false, n, runs);
    case Made(x, vals, scalar) =>
      MadeFits(vals, scalar);
      book' := NewAccounted(run, w, r, l, book, x, MadeTensor(vals, scalar), true, n, runs);
    case Op(_, _, _, _) => book' := OpAccounted(run, w, r, l, book, c, n, runs);
    case Parameter(_, _) => book' := ParameterAccounted(run, w, r, l, book, c, n, runs);
    case Step(_, _, _, _) => book' := StepAccounted(run, w, r, l, book, c, n, runs);
    case Grad(_, _, _, _) => book' := GradAccounted(run, w, r, l, book, c, n, runs);
    case Release(_) => book' := ReleaseAccounted(run, w, r, l, book, c);
    case Read(_) => book' := ReadAccounted(run, w, r, l, book, c, n, runs);
  }

  // ---- whole programs ---------------------------------------------------------------------------------------

  lemma LacksWithin(run: Kernel, w: World, r: Reference, l: Ledger, book: Book, x: Name)
    requires Simulates(run, w, r) && Accounted(w, l, book) && x in w.env
    ensures Lacks(w.e.slots, w.env[x]) <= Unvalued(l, x)
  {
    hide Covered, Inv, Simulates;
    SimParts(run, w, r);
    assert Faithful(w.e.slots, w.env[x], book[w.env[x]]);
  }

  lemma {:induction false} AllLacksWithin(run: Kernel, w: World, r: Reference, l: Ledger, book: Book, ys: seq<Name>)
    requires Simulates(run, w, r) && Accounted(w, l, book) && Names(w.env, ys).Some?
    ensures AllLacks(w.e.slots, Names(w.env, ys).value) <= AllUnvalued(l, ys)
    decreases |ys|
  {
    hide Accounted, Simulates, Lacks;
    if ys != [] {
      LacksWithin(run, w, r, l, book, ys[0]);
      AllLacksWithin(run, w, r, l, book, ys[1..]);
      assert Names(w.env, ys).value[1..] == Names(w.env, ys[1..]).value;
    }
  }

  /** The closures a command runs are no more than the ledger says. */
  lemma RunsWithin(run: Kernel, w: World, r: Reference, l: Ledger, book: Book, c: Cmd)
    requires Simulates(run, w, r) && Accounted(w, l, book)
    ensures RunsOf(w, c) <= LedgerRuns(l, c)
  {
    hide Simulates, Lacks, Kept, Ties, Unvalued;
    match c
    case Op(_, _, ys, _) => if Names(w.env, ys).Some? { AllLacksWithin(run, w, r, l, book, ys); }
    case Parameter(_, y) => if y in w.env { LacksWithin(run, w, r, l, book, y); }
    case Read(x) => if x in w.env { LacksWithin(run, w, r, l, book, x); }
    case Step(_, p, g, _) =>
      if p in w.env && g in w.env {
        LacksWithin(run, w, r, l, book, p);
        LacksWithin(run, w, r, l, book, g);
      }
    case _ =>
  }

  lemma RoomFor(run: Kernel, w: World, l: Ledger, book: Book, n: nat, runs: nat)
    requires Inv(run, w.e) && w.e.exact && !w.e.full && AllFit(w.e.slots) && |w.e.entries| <= runs <= MAX_ENTRY
    requires Accounted(w, l, book) && |w.e.slots| == n + 2 && |Owed(l)| <= MAX_LIVE && |Owed(l)| <= n + 1
    ensures Roomy(run, w.e, |Owed(l)|, runs)
  {
    hide Accounted, AllFit, Inv;
    LiveWithinOwed(run, w, l, book);
  }

  lemma InRoom(run: Kernel, e: Engine, n: nat, runs: nat, more: nat)
    requires Roomy(run, e, n, runs) && runs <= more
    ensures Inv(run, e) && e.exact && !e.full && AllFit(e.slots) && |e.entries| <= more
  {
  }

  function LedgerRun(l: Ledger, prog: seq<Cmd>): Ledger
    decreases |prog|
  {
    if prog == [] then l else LedgerRun(LedgerStep(l, prog[0]), prog[1..])
  }

  lemma {:induction false} RunFits(run: Kernel, w: World, r: Reference, l: Ledger, book: Book, prog: seq<Cmd>, n: nat,
                                   runs: nat) returns (book': Book)
    requires KernelFits(run) && Simulates(run, w, r) && Accounted(w, l, book)
    requires Inv(run, w.e) && w.e.exact && !w.e.full && AllFit(w.e.slots) && |w.e.entries| <= runs
    requires |w.e.slots| == n + 2 && Fits(l, n, runs, prog)
    ensures var w' := RunProgram(run, w, prog);
            Inv(run, w'.e) && w'.e.exact && !w'.e.full && Accounted(w', LedgerRun(l, prog), book')
    decreases |prog|
  {
    hide Roomy, Simulates, CmdFits, WorldStep, Accounted, AllFit, Inv, LedgerStep, LedgerRuns, RunsOf;
    book' := book;
    if prog != [] {
      var c, m := prog[0], |Owed(l)|;
      RoomFor(run, w, l, book, n, runs);
      RunsWithin(run, w, r, l, book, c);
      CommandRoomy(run, w, r, c, m, runs);
      var book1 := CommandAccounted(run, w, r, l, book, c, m, runs);
      var w1 := WorldStep(run, w, c);
      InRoom(run, w1.e, m + Births(c), runs + RunsOf(w, c), runs + LedgerRuns(l, c));
      StepSimulates(run, w, r, c);
      book' := RunFits(run, w1, RefStep(run, r, c), LedgerStep(l, c), book1, prog[1..], n, runs + LedgerRuns(l, c));
    }
  }

  lemma StartAccounted(run: Kernel, n: nat)
    ensures Inv(run, Start(n).e) && AllFit(Start(n).e.slots) && Accounted(Start(n), OPENING, map[])
  {
    StartSimulates(run, n);
  }

  /** A program that fits is never cut short, and keeps no more slots live than its ledger owes. */
  lemma FewLive(run: Kernel, n: nat, prog: seq<Cmd>)
    requires KernelFits(run) && ProgramFits(n, prog)
    ensures var e := RunProgram(run, Start(n), prog).e;
            e.exact && !e.full && |LiveSet(e.slots)| <= |Owed(LedgerRun(OPENING, prog))|
  {
    hide RunProgram, Accounted, Simulates, Fits, AllFit, Inv;
    StartSimulates(run, n);
    StartAccounted(run, n);
    var book := RunFits(run, Start(n), Reference(map[], {}, []), OPENING, map[], prog, n, 0);
    LiveWithinOwed(run, RunProgram(run, Start(n), prog), LedgerRun(OPENING, prog), book);
  }

  /** No key was cut and no table was full. */
  lemma NeverFull(run: Kernel, n: nat, prog: seq<Cmd>)
    requires KernelFits(run) && ProgramFits(n, prog)
    ensures var e := RunProgram(run, Start(n), prog).e; e.exact && !e.full
  {
    FewLive(run, n, prog);
  }

  /** So every read of it is the reference's, whatever the mode and wherever it is switched. */
  lemma FittingProgramsRefine(run: Kernel, n: nat, prog: seq<Cmd>)
    requires KernelFits(run) && ProgramFits(n, prog)
    ensures RunProgram(run, Start(n), prog).out == RefProgram(run, Reference(map[], {}, []), prog).out
  {
    hide ProgramFits;
    NeverFull(run, n, prog);
    EngineRefinesReference(run, n, prog);
  }

  /** And eager and graph runs of it read the same values. */
  lemma FittingProgramsAgree(run: Kernel, n: nat, p: seq<Cmd>, q: seq<Cmd>)
    requires KernelFits(run) && ProgramFits(n, p) && ProgramFits(n, q) && WithoutModes(p) == WithoutModes(q)
    ensures RunProgram(run, Start(n), p).out == RunProgram(run, Start(n), q).out
  {
    hide ProgramFits;
    NeverFull(run, n, p);
    NeverFull(run, n, q);
    EagerAndGraphAgree(run, n, p, q);
  }

  // ---- programs that fit ------------------------------------------------------------------------------------

  /** What the commands make in all, and the most they can have to compile. */
  function TotalBirths(prog: seq<Cmd>): nat {
    if prog == [] then 0 else Births(prog[0]) + TotalBirths(prog[1..])
  }

  function MostRuns(c: Cmd): nat {
    match c
    case Op(_, _, ys, _) => |ys|
    case Parameter(_, _) | Read(_) | Grad(_, _, _, _) => 1
    case Step(_, _, _, _) => 2
    case _ => 0
  }

  function TotalRuns(prog: seq<Cmd>): nat {
    if prog == [] then 0 else MostRuns(prog[0]) + TotalRuns(prog[1..])
  }

  /** Every stamp is of the past. */
  ghost predicate Dated(l: Ledger) {
    && (forall x, b :: x in l.accounts && b in l.accounts[x].holds ==> b < l.clock)
    && (forall x :: x in l.accounts ==> l.accounts[x].id < l.clock)
    && (forall b :: b in l.lost ==> b < l.clock)
  }

  lemma {:induction false} BelowCount(s: set<nat>, n: nat)
    requires forall b :: b in s ==> b < n
    ensures |s| <= n
  {
    if n > 0 {
      BelowCount(s - {n - 1}, n - 1);
    } else {
      assert s == {};
    }
  }

  lemma OpenedDated(l: Ledger, x: Name, a: Account)
    requires Dated(l) && l.clock <= a.id && forall b :: b in a.holds ==> b <= a.id
    ensures Dated(Opened(l, x, a))
  {
  }

  lemma ValuedDated(l: Ledger, x: Name)
    requires Dated(l)
    ensures Dated(ValuedIn(l, x)) && ValuedIn(l, x).clock == l.clock
  {
  }

  lemma {:induction false} OpenedAllDated(l: Ledger, xs: seq<Name>)
    requires Dated(l)
    ensures Dated(OpenedAll(l, xs)) && OpenedAll(l, xs).clock == l.clock + |xs|
    decreases |xs|
  {
    hide Dated;
    if xs != [] {
      OpenedDated(l, xs[0], Plain(l.clock, false));
      OpenedAllDated(Opened(l, xs[0], Plain(l.clock, false)), xs[1..]);
    }
  }

  lemma ForgottenDated(l: Ledger, xs: seq<Name>)
    requires Dated(l)
    ensures Dated(ForgottenAll(l, xs)) && forall x :: Dated(Forgotten(l, x)) && Dated(Released(l, x))
  {
  }

  lemma OpEntryDated(l: Ledger, ys: seq<Name>)
    requires Dated(l) && AllOpen(l, ys)
    ensures forall b :: b in OpEntry(l, ys).holds ==> b <= l.clock
  {
  }

  lemma StepDated(l: Ledger, c: Cmd)
    requires Dated(l)
    ensures Dated(LedgerStep(l, c)) && LedgerStep(l, c).clock <= l.clock + Births(c)
  {
    hide OpEntry, OpenedAll;
    match c
    case Data(x, _) => OpenedDated(l, x, Plain(l.clock, false));
    case Made(x, _, _) => OpenedDated(l, x, Plain(l.clock, false));
    case Op(x, _, ys, refused) =>
      ForgottenDated(l, []);
      if AllOpen(l, ys) {
        OpEntryId(l, ys);
        OpEntryDated(l, ys);
        OpenedDated(l, x, OpEntry(l, ys));
      }
    case Parameter(x, y) =>
      ForgottenDated(l, []);
      ValuedDated(l, y);
      OpenedDated(ValuedIn(l, y), x, Plain(l.clock, true));
    case Step(x, w, g, _) =>
      ForgottenDated(l, []);
      if w in l.accounts && g in l.accounts { OpenedDated(l, x, StepEntry(l, w, g)); }
    case Grad(_, _, xs, _) =>
      ForgottenDated(l, xs);
      OpenedAllDated(l, xs);
    case Release(_) => ForgottenDated(l, []);
    case Read(x) => ValuedDated(l, x);
    case SetMode(_) =>
  }

  lemma {:induction false} RunDated(l: Ledger, prog: seq<Cmd>)
    requires Dated(l)
    ensures Dated(LedgerRun(l, prog)) && LedgerRun(l, prog).clock <= l.clock + TotalBirths(prog)
    decreases |prog|
  {
    hide Dated, LedgerStep;
    if prog != [] {
      StepDated(l, prog[0]);
      RunDated(LedgerStep(l, prog[0]), prog[1..]);
    }
  }

  lemma {:induction false} FewUnvalued(l: Ledger, ys: seq<Name>)
    ensures AllUnvalued(l, ys) <= |ys|
  {
    if ys != [] { FewUnvalued(l, ys[1..]); }
  }

  lemma {:induction false} FewMadeFits(l: Ledger, n: nat, runs: nat, prog: seq<Cmd>)
    requires Dated(l) && (forall i :: 0 <= i < |prog| ==> CmdFits(prog[i])) && runs + TotalRuns(prog) <= MAX_ENTRY
    requires l.clock + TotalBirths(prog) <= MAX_LIVE && l.clock + TotalBirths(prog) <= n + 1
    ensures Fits(l, n, runs, prog)
    decreases |prog|
  {
    hide Dated, CmdFits, LedgerStep, Owed;
    if prog != [] {
      var c := prog[0];
      StepDated(l, c);
      OwedDated(l);
      LedgerRunsFew(l, c);
      FewMadeFits(LedgerStep(l, c), n, runs + LedgerRuns(l, c), prog[1..]);
    }
  }

  lemma OwedDated(l: Ledger)
    requires Dated(l)
    ensures |Owed(l)| <= l.clock
  {
    BelowCount(Owed(l), l.clock);
  }

  lemma LedgerRunsFew(l: Ledger, c: Cmd)
    ensures LedgerRuns(l, c) <= MostRuns(c)
  {
    if c.Op? { FewUnvalued(l, c.ys); }
  }

  /** A program that makes few tensors and reads few of them fits, whatever it releases. */
  lemma SmallProgramsFit(n: nat, prog: seq<Cmd>)
    requires (forall i :: 0 <= i < |prog| ==> CmdFits(prog[i])) && TotalRuns(prog) <= MAX_ENTRY
    requires TotalBirths(prog) <= MAX_LIVE && TotalBirths(prog) <= n + 1
    ensures ProgramFits(n, prog)
  {
    FewMadeFits(OPENING, n, 0, prog);
  }

  /** One round of a loop: data in, an operation on it, its value out, and both released. */
  function Round(t: Tensor, sig: OpSig): seq<Cmd> {
    [Data(0, t), Op(1, sig, [0], false), Read(1), Release(1), Release(0)]
  }

  function Rounds(t: Tensor, sig: OpSig, k: nat): seq<Cmd> {
    if k == 0 then [] else Round(t, sig) + Rounds(t, sig, k - 1)
  }

  lemma NothingFits(l: Ledger, n: nat)
    ensures Fits(l, n, 0, [])
  {
  }

  /** A table of two slots is enough for such a loop of any length. */
  lemma {:induction false} LoopFits(t: Tensor, sig: OpSig, n: nat, k: nat, clock: nat)
    requires TensorFits(t) && SigFits(sig) && n >= 1
    ensures Fits(Ledger(clock, map[], {}, false), n, 0, Rounds(t, sig, k))
    decreases k
  {
    hide Fits, Round, TensorFits, SigFits;
    if k == 0 {
      NothingFits(Ledger(clock, map[], {}, false), n);
    } else {
      LoopFits(t, sig, n, k - 1, clock + 2);
      RoundFits(t, sig, n, clock, Rounds(t, sig, k - 1));
    }
  }

  lemma OneFits(l: Ledger, n: nat, runs: nat, c: Cmd, rest: seq<Cmd>, l': Ledger)
    requires CmdFits(c) && |Owed(l)| + Births(c) <= MAX_LIVE && |Owed(l)| + Births(c) <= n + 1
    requires LedgerRuns(l, c) == 0 && runs <= MAX_ENTRY && LedgerStep(l, c) == l' && Fits(l', n, runs, rest)
    ensures Fits(l, n, runs, [c] + rest)
  {
    assert ([c] + rest)[0] == c && ([c] + rest)[1..] == rest;
  }

  lemma OwedOne(l: Ledger, x: Name, a: nat)
    requires l.accounts == map[x := Plain(a, false)] && l.lost == {}
    ensures Owed(l) == {a}
  {
    assert x in l.accounts && a in l.accounts[x].holds;
  }

  lemma OwedTwo(l: Ledger, x: Name, a: nat, y: Name, b: nat)
    requires x != y && l.accounts == map[x := Plain(a, false), y := Plain(b, false)] && l.lost == {}
    ensures Owed(l) == {a, b}
  {
    assert x in l.accounts && a in l.accounts[x].holds;
    assert y in l.accounts && b in l.accounts[y].holds;
  }

  /** The ledger with nothing owed but these. */
  function Holding(clock: nat, accounts: map<Name, Account>): Ledger {
    Ledger(clock, accounts, {}, false)
  }

  lemma RoundMakes(t: Tensor, sig: OpSig, c: nat)
    ensures LedgerStep(Holding(c, map[]), Data(0, t)) == Holding(c + 1, map[0 := Plain(c, false)])
    ensures var l, op := Holding(c + 1, map[0 := Plain(c, false)]), Op(1, sig, [0], false);
            && LedgerRuns(l, op) == 0
            && LedgerStep(l, op) == Holding(c + 2, map[0 := Plain(c, false), 1 := Plain(c + 1, false)])
  {
    var l := Holding(c + 1, map[0 := Plain(c, false)]);
    assert OpEntry(l, [0]) == Plain(c + 1, false);
    assert AllUnvalued(l, [0]) == Unvalued(l, 0) + AllUnvalued(l, [0][1..]) && [0][1..] == [];
  }

  lemma RoundEnds(c: nat)
    ensures var l := Holding(c + 2, map[0 := Plain(c, false), 1 := Plain(c + 1, false)]);
            && LedgerRuns(l, Read(1)) == 0 && LedgerStep(l, Read(1)) == l
            && LedgerStep(l, Release(1)) == Holding(c + 2, map[0 := Plain(c, false)])
            && LedgerStep(Holding(c + 2, map[0 := Plain(c, false)]), Release(0)) == Holding(c + 2, map[])
  {
  }

  lemma RoundOwes(c: nat)
    ensures |Owed(Holding(c, map[]))| == 0
    ensures |Owed(Holding(c + 1, map[0 := Plain(c, false)]))| == |Owed(Holding(c + 2, map[0 := Plain(c, false)]))| == 1
    ensures |Owed(Holding(c + 2, map[0 := Plain(c, false), 1 := Plain(c + 1, false)]))| == 2
  {
    assert Owed(Holding(c, map[])) == {};
    OwedOne(Holding(c + 1, map[0 := Plain(c, false)]), 0, c);
    OwedOne(Holding(c + 2, map[0 := Plain(c, false)]), 0, c);
    OwedTwo(Holding(c + 2, map[0 := Plain(c, false), 1 := Plain(c + 1, false)]), 0, c, 1, c + 1);
    hide Owed;
  }

  lemma RoundFits(t: Tensor, sig: OpSig, n: nat, c: nat, rest: seq<Cmd>)
    requires TensorFits(t) && SigFits(sig) && n >= 1 && Fits(Holding(c + 2, map[]), n, 0, rest)
    ensures Fits(Holding(c, map[]), n, 0, Round(t, sig) + rest)
  {
    hide Fits, SigFits, TensorFits, Owed, LedgerStep, LedgerRuns, Holding, Plain;
    RoundOwes(c);
    RoundMakes(t, sig, c);
    RoundEnds(c);
    var l0, l1 := Holding(c, map[]), Holding(c + 1, map[0 := Plain(c, false)]);
    var l2 := Holding(c + 2, map[0 := Plain(c, false), 1 := Plain(c + 1, false)]);
    var l4 := Holding(c + 2, map[0 := Plain(c, false)]);
    var r4 := [Release(0)] + rest;
    var r3 := [Release(1)] + r4;
    var r2 := [Read(1)] + r3;
    var r1 := [Op(1, sig, [0], false)] + r2;
    NoRuns(l0, l2, l4, t);
    OneFits(l4, n, 0, Release(0), rest, Holding(c + 2, map[]));
    OneFits(l2, n, 0, Release(1), r4, l4);
    OneFits(l2, n, 0, Read(1), r3, l2);
    OneFits(l1, n, 0, Op(1, sig, [0], false), r2, l2);
    OneFits(l0, n, 0, Data(0, t), r1, l1);
    assert Round(t, sig) + rest == [Data(0, t)] + r1;
  }

  lemma NoRuns(l0: Ledger, l2: Ledger, l4: Ledger, t: Tensor)
    ensures LedgerRuns(l0, Data(0, t)) == LedgerRuns(l2, Release(1)) == LedgerRuns(l4, Release(0)) == 0
  {
  }

  /** So it reads what the reference reads, however long it goes on. */
  lemma LoopRefines(run: Kernel, t: Tensor, sig: OpSig, n: nat, k: nat)
    requires KernelFits(run) && TensorFits(t) && SigFits(sig) && n >= 1
    ensures var e := RunProgram(run, Start(n), Rounds(t, sig, k)).e; e.exact && !e.full
    ensures RunProgram(run, Start(n), Rounds(t, sig, k)).out ==
            RefProgram(run, Reference(map[], {}, []), Rounds(t, sig, k)).out
  {
    hide Fits, RunProgram, RefProgram;
    LoopFits(t, sig, n, k, 0);
    NeverFull(run, n, Rounds(t, sig, k));
    FittingProgramsRefine(run, n, Rounds(t, sig, k));
  }
}
