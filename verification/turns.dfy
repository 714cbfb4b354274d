/**
 Taking turns (client/zigurat.c: take_turn, give_turn, verb, simple_verb, zg_call_send, lost, dial,
 zg_serialise and zg_close). Connections of any number of processes share one turn file; each runs
 its calls step by step and the steps of different connections interleave in any order.
 */
module Turns {
  import opened Wrappers

  /** A verb: whether it ends a transaction, and whether the call waits for the server to take it. */
  datatype Verb = Verb(ends: bool, waits: bool)

  /** Where a connection is within a call. */
  datatype Phase = Idle | Wanting(verb: Verb) | Ready(verb: Verb) | Asked(verb: Verb) | Ending

  datatype Process = Process(open: bool, serialised: bool, held: bool, phase: Phase)

  datatype Act =
    | Begin(verb: Verb)       // a call is made
    | Take(granted: bool)     // take_turn answers: the turn, or no turn in time
    | Send                    // the verb's bytes are queued, unless the connection is closed
    | Result(taken: bool)     // the server takes the verb or refuses it
    | Finish                  // the answer to a commit or rollback is read, whatever it is
    | Fail                    // a transfer fails, or the server throws
    | Redial(answers: bool)
    | Serialise(on: bool)
    | Close

  function Released(p: Process): Process {
    p.(held := false)
  }

  /** Whether a connection can do this where it stands. */
  predicate Enabled(p: Process, a: Act) {
    match a
    case Begin(_) => p.phase.Idle?
    case Take(_) => p.phase.Wanting?
    case Send => p.phase.Ready?
    case Result(_) => p.phase.Asked? && p.open
    case Finish => p.phase.Ending? && p.open
    case Fail => p.open && !p.phase.Wanting?
    case Redial(_) => p.phase.Idle?
    case Serialise(_) => p.phase.Idle?
    case Close => p.phase.Idle?
  }

  /** What it does to the connection itself. */
  function Local(p: Process, a: Act): Process {
    match a
    case Begin(v) => p.(phase := Wanting(v))
    case Take(granted) =>
      if !p.phase.Wanting? then p
      else if !p.serialised || p.held then p.(phase := Ready(p.phase.verb))
      else if granted then p.(held := true, phase := Ready(p.phase.verb))
      else p.(phase := Idle)
    case Send =>
      if p.phase.Ready? && p.open && p.phase.verb.waits then p.(phase := Asked(p.phase.verb)) else p.(phase := Idle)
    case Result(taken) =>
      if p.phase.Asked? && taken && p.phase.verb.ends then p.(phase := Ending) else p.(phase := Idle)
    case Finish => Released(p).(phase := Idle)
    case Fail => Released(p).(open := false, phase := Idle)
    case Redial(answers) => Released(p).(open := answers)
    case Serialise(on) => Released(p).(serialised := on)
    case Close => Released(p).(open := false)
  }

  /** One connection's own steps, one after another. */
  function LocalRun(p: Process, acts: seq<Act>): Process {
    if acts == [] then p else Local(LocalRun(p, acts[..|acts| - 1]), acts[|acts| - 1])
  }

  /** Each of them where it can be done. */
  predicate Possible(p: Process, acts: seq<Act>) {
    acts == [] || (Possible(p, acts[..|acts| - 1]) && Enabled(LocalRun(p, acts[..|acts| - 1]), acts[|acts| - 1]))
  }

  lemma LocalMore(p: Process, acts: seq<Act>, a: Act)
    ensures LocalRun(p, acts + [a]) == Local(LocalRun(p, acts), a)
    ensures Possible(p, acts + [a]) <==> Possible(p, acts) && Enabled(LocalRun(p, acts), a)
  {
    assert (acts + [a])[..|acts|] == acts;
  }

  // ---- all of them together ------------------------------------------------------------------------------

  datatype Entry = Took(id: nat) | Queued(id: nat, serialised: bool) | Gave(id: nat)

  /** The connections, who has the lock on the turn file, and what has happened in order. */
  datatype World = World(procs: map<nat, Process>, lock: Option<nat>, log: seq<Entry>)

  datatype Step = Open(id: nat) | Does(id: nat, act: Act)

  const START := World(map[], None, [])

  /** The lock is granted only while nobody has it. */
  predicate Allowed(w: World, s: Step) {
    match s
    case Open(id) => id !in w.procs
    case Does(id, a) =>
      && id in w.procs && Enabled(w.procs[id], a)
      && (a == Take(true) && w.procs[id].serialised && !w.procs[id].held ==> w.lock == None)
  }

  function Entries(id: nat, p: Process, q: Process, a: Act): seq<Entry> {
    if !p.held && q.held then [Took(id)]
    else if p.held && !q.held then [Gave(id)]
    else if a.Send? && p.open then [Queued(id, p.serialised)]
    else []
  }

  /** One step of the whole; a step that is not allowed does nothing. */
  function Next(w: World, s: Step): World {
    if !Allowed(w, s) then w
    else
      match s
      case Open(id) => w.(procs := w.procs[id := Process(true, false, false, Idle)])
      case Does(id, a) =>
        var p := w.procs[id];
        var q := Local(p, a);
        var lock := if !p.held && q.held then Some(id) else if p.held && !q.held then None else w.lock;
        World(if a.Close? then w.procs - {id} else w.procs[id := q], lock, w.log + Entries(id, p, q, a))
  }

  function Run(w: World, steps: seq<Step>): World {
    if steps == [] then w else Next(Run(w, steps[..|steps| - 1]), steps[|steps| - 1])
  }

  // ---- what every run keeps ---------------------------------------------------------------------------------

  /** A connection that has queued a verb, or is about to, holds the turn if it takes turns at all. */
  predicate ProcessRight(p: Process) {
    && (p.held ==> p.serialised)
    && (p.phase.Ready? || p.phase.Asked? || p.phase.Ending? ==> p.held == p.serialised)
  }

  /** Who has the turn, as the log tells it. */
  function Owner(log: seq<Entry>): Option<nat> {
    if log == [] then None
    else
      match log[|log| - 1]
      case Took(id) => Some(id)
      case Gave(_) => None
      case Queued(_, _) => Owner(log[..|log| - 1])
  }

  /** Turns are taken when free, given back by their owner, and verbs that need one are queued by its owner. */
  predicate EntryRight(e: Entry, owner: Option<nat>) {
    match e
    case Took(_) => owner == None
    case Gave(id) => owner == Some(id)
    case Queued(id, serialised) => serialised ==> owner == Some(id)
  }

  ghost predicate LogRight(log: seq<Entry>) {
    forall i :: 0 <= i < |log| ==> EntryRight(log[i], Owner(log[..i]))
  }

  ghost predicate Safe(w: World) {
    && (forall id :: id in w.procs ==> ProcessRight(w.procs[id]) && (w.procs[id].held <==> w.lock == Some(id)))
    && (w.lock.Some? ==> w.lock.value in w.procs)
    && Owner(w.log) == w.lock && LogRight(w.log)
  }

  lemma LocalRight(p: Process, a: Act)
    requires ProcessRight(p) && Enabled(p, a)
    ensures ProcessRight(Local(p, a))
  {
  }

  lemma LogMore(log: seq<Entry>, es: seq<Entry>)
    requires LogRight(log) && |es| <= 1 && (es != [] ==> EntryRight(es[0], Owner(log)))
    ensures LogRight(log + es)
    ensures es == [] ==> Owner(log + es) == Owner(log)
    ensures es != [] ==>
      Owner(log + es) == match es[0] case Took(id) => Some(id) case Gave(_) => None case Queued(_, _) => Owner(log)
  {
    var all := log + es;
    if es == [] {
      assert all == log;
    } else {
      assert all[..|log|] == log;
      forall i | 0 <= i < |all| ensures EntryRight(all[i], Owner(all[..i])) {
        if i < |log| { assert all[..i] == log[..i]; }
      }
    }
  }

  /** Every step of every connection keeps the turn safe. */
  lemma StepSafe(w: World, s: Step)
    requires Safe(w)
    ensures Safe(Next(w, s))
  {
    hide LogRight, Owner;
    if Allowed(w, s) && s.Does? {
      var p := w.procs[s.id];
      var q := Local(p, s.act);
      LocalRight(p, s.act);
      LogMore(w.log, Entries(s.id, p, q, s.act));
    }
  }

  lemma {:induction false} RunSafe(w: World, steps: seq<Step>)
    requires Safe(w)
    ensures Safe(Run(w, steps))
  {
    if steps != [] {
      RunSafe(w, steps[..|steps| - 1]);
      StepSafe(Run(w, steps[..|steps| - 1]), steps[|steps| - 1]);
    }
  }

  /** However processes interleave, at most one connection holds the turn. */
  lemma OneHolder(steps: seq<Step>, a: nat, b: nat)
    requires var w := Run(START, steps); a in w.procs && b in w.procs && w.procs[a].held && w.procs[b].held
    ensures a == b
  {
    RunSafe(START, steps);
  }

  /** A verb of a connection that takes turns is queued only while it holds the turn. */
  lemma QueuedByHolder(steps: seq<Step>, s: Step)
    requires var w := Run(START, steps); Allowed(w, s) && s.Does? && s.act.Send? && w.procs[s.id].open
    ensures var w := Run(START, steps);
            Next(w, s).log == w.log + [Queued(s.id, w.procs[s.id].serialised)] && (w.procs[s.id].serialised ==>
              w.lock == Some(s.id))
  {
    RunSafe(START, steps);
  }

  /** Between two owners of the turn, the first gave it back. */
  lemma {:induction false} OwnerChanges(log: seq<Entry>, i: nat, k: nat, a: nat) returns (m: nat)
    requires LogRight(log) && i <= k <= |log| && Owner(log[..i]) == Some(a) && Owner(log[..k]) != Some(a)
    ensures i <= m < k && log[m] == Gave(a)
    decreases k
  {
    assert log[..k][..k - 1] == log[..k - 1] && log[..k][k - 1] == log[k - 1];
    assert EntryRight(log[k - 1], Owner(log[..k - 1]));
    if Owner(log[..k - 1]) == Some(a) {
      m := k - 1;
    } else {
      m := OwnerChanges(log, i, k - 1, a);
    }
  }

  /**
   Transactions do not mix: between a verb of one connection and a later verb of another, both taking
   turns, the first gave its turn back.
   */
  lemma NoMixing(steps: seq<Step>, i: nat, k: nat, a: nat, b: nat) returns (m: nat)
    requires var log := Run(START, steps).log;
            i < k < |log| && log[i] == Queued(a, true) && log[k] == Queued(b, true) && a != b
    ensures i < m < k && Run(START, steps).log[m] == Gave(a)
  {
    RunSafe(START, steps);
    var log := Run(START, steps).log;
    assert EntryRight(log[i], Owner(log[..i])) && EntryRight(log[k], Owner(log[..k]));
    m := OwnerChanges(log, i, k, a);
  }

  /** What gives a turn up. */
  predicate GivesUp(a: Act) {
    match a
    case Finish | Fail | Redial(_) | Serialise(_) | Close => true
    case _ => false
  }

  /** One step: a turn held is kept unless its holder does something that gives it up. */
  lemma StepKeepsTurn(w: World, s: Step, id: nat)
    requires Safe(w) && w.lock == Some(id)
    ensures Next(w, s).lock == Some(id) <==> !(Allowed(w, s) && s.Does? && s.id == id && GivesUp(s.act))
  {
  }

  lemma RunStep(w: World, steps: seq<Step>, m: nat)
    requires m < |steps|
    ensures Run(w, steps[..m + 1]) == Next(Run(w, steps[..m]), steps[m])
  {
    assert steps[..m + 1][..m] == steps[..m];
  }

  lemma SafeSoFar(steps: seq<Step>)
    ensures Safe(Run(START, steps))
  {
    RunSafe(START, steps);
  }

  /**
   Over any run: a connection that holds the turn at one time and not at a later one has in between
   done one of the things that give it up.
   */
  lemma {:induction false} TurnGivenUp(steps: seq<Step>, i: nat, k: nat, id: nat) returns (m: nat)
    requires i <= k <= |steps|
    requires Run(START, steps[..i]).lock == Some(id) && Run(START, steps[..k]).lock != Some(id)
    ensures i <= m < k && steps[m].Does? && steps[m].id == id && GivesUp(steps[m].act)
    ensures Allowed(Run(START, steps[..m]), steps[m]) && Run(START, steps[..m]).lock == Some(id)
    decreases k
  {
    hide Run, Safe, GivesUp, Allowed, Next;
    var before := Run(START, steps[..k - 1]);
    RunStep(START, steps, k - 1);
    SafeSoFar(steps[..k - 1]);
    if before.lock == Some(id) {
      StepKeepsTurn(before, steps[k - 1], id);
      m := k - 1;
    } else {
      m := TurnGivenUp(steps, i, k - 1, id);
    }
  }

  /** A connection that has not done anything is where it was. */
  lemma Untouched(w: World, s: Step, id: nat)
    requires id in w.procs && !(Allowed(w, s) && s.Does? && s.id == id)
    ensures id in Next(w, s).procs && Next(w, s).procs[id] == w.procs[id]
  {
  }

  /**
   A connection about to finish a commit or rollback is there because the server took that verb, and
   it has done nothing since.
   */
  lemma {:induction false} EndingWasTaken(steps: seq<Step>, m: nat, id: nat) returns (j: nat)
    requires m <= |steps|
    requires var w := Run(START, steps[..m]); id in w.procs && w.procs[id].phase.Ending?
    ensures j < m && steps[j] == Does(id, Result(true)) && Allowed(Run(START, steps[..j]), steps[j])
    ensures var w := Run(START, steps[..j]); id in w.procs && w.procs[id].phase.Asked? && w.procs[id].phase.verb.ends
    ensures forall l :: j < l < m && steps[l].Does? && steps[l].id == id ==> !Allowed(Run(START, steps[..l]), steps[l])
    decreases m
  {
    assert steps[..0] == [];
    var w, s := Run(START, steps[..m - 1]), steps[m - 1];
    RunStep(START, steps, m - 1);
    if Allowed(w, s) && s.Does? && s.id == id {
      j := m - 1;
    } else {
      if id in w.procs { Untouched(w, s, id); }
      j := EndingWasTaken(steps, m - 1, id);
    }
  }

  /**
   A turn given back by finishing a call was given back after a commit or rollback the server took,
   in that same call.
   */
  lemma FinishedWasTaken(steps: seq<Step>, m: nat, id: nat) returns (j: nat)
    requires m < |steps| && steps[m] == Does(id, Finish) && Allowed(Run(START, steps[..m]), steps[m])
    ensures j < m && steps[j] == Does(id, Result(true)) && Allowed(Run(START, steps[..j]), steps[j])
    ensures var w := Run(START, steps[..j]); id in w.procs && w.procs[id].phase.Asked? && w.procs[id].phase.verb.ends
    ensures forall l :: j < l < m && steps[l].Does? && steps[l].id == id ==> !Allowed(Run(START, steps[..l]), steps[l])
  {
    j := EndingWasTaken(steps, m, id);
  }

  /** A refused verb keeps the turn, and goes on keeping it until the connection gives it up. */
  lemma RefusedKeeps(steps: seq<Step>, i: nat, k: nat, id: nat)
    requires i < k <= |steps| && steps[i] == Does(id, Result(false))
    requires var w := Run(START, steps[..i]); Allowed(w, steps[i]) && w.procs[id].serialised
    requires forall m :: i < m < k && steps[m].Does? && steps[m].id == id ==> !GivesUp(steps[m].act)
    ensures Run(START, steps[..k]).lock == Some(id)
  {
    RunSafe(START, steps[..i]);
    if Run(START, steps[..k]).lock != Some(id) {
      var m := TurnGivenUp(steps, i, k, id);
    }
  }

  // ---- a call on a closed connection ------------------------------------------------------------------------

  function Call(id: nat, verb: Verb): seq<Step> {
    [Does(id, Begin(verb)), Does(id, Take(true)), Does(id, Send)]
  }

  /**
   A call made on a connection that is already closed fails, but the turn it took for it stays
   taken: exactly when the connection takes turns and the turn was free or already its own.
   */
  lemma ClosedCallHoldsTurn(w: World, id: nat, verb: Verb)
    requires Safe(w) && id in w.procs && !w.procs[id].open && w.procs[id].phase.Idle?
    ensures var v := Run(w, Call(id, verb));
            v.lock == Some(id) <==> w.procs[id].serialised && (w.lock == None || w.lock == Some(id))
  {
    var call := Call(id, verb);
    var w1, w2 := Next(w, call[0]), Next(Next(w, call[0]), call[1]);
    assert call[..1] == [call[0]] && call[..2][..1] == call[..1] && call[..1][..0] == [] && call[..3] == call;
    assert Run(w, call[..0]) == w && Run(w, call[..1]) == w1 && Run(w, call[..2]) == w2;
    assert Run(w, call) == Next(w2, call[2]);
  }

  /**
   From there the turn stays taken, through any steps of any connections, until its own redial, close
   or new turn file: nothing is left to fail or finish.
   */
  lemma {:induction false} ClosedHolderKeeps(w: World, id: nat, steps: seq<Step>)
    requires Safe(w) && id in w.procs && !w.procs[id].open && w.lock == Some(id)
    requires forall m :: 0 <= m < |steps| && steps[m].Does? && steps[m].id == id ==>
               !(steps[m].act.Redial? || steps[m].act.Serialise? || steps[m].act.Close?)
    ensures var v := Run(w, steps); v.lock == Some(id) && id in v.procs && !v.procs[id].open
  {
    if steps != [] {
      var n := |steps| - 1;
      ClosedHolderKeeps(w, id, steps[..n]);
      RunSafe(w, steps[..n]);
      var v := Run(w, steps[..n]);
      StepKeepsTurn(v, steps[n], id);
    }
  }
}
