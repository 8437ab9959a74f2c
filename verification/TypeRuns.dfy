// What the runs of kernels say about add-wins sets.
module AworRuns {
  import opened Basics
  import opened DotContexts
  import opened DotKernels
  import opened DotTypes
  import opened KernelRuns

  ghost function AddOp<E>(v: E): Op<E> {
    Op(Some(v), x => x == v)
  }

  ghost function RmvOp<E>(v: E): Op<E> {
    Op(None, x => x == v)
  }

  ghost function ResetOp<E>(): Op<E> {
    Op(None, x => true)
  }

  // add, rmv and reset are the mutations a run performs.
  lemma MutatorsOfAwor<E>(k: Kernel<E>, id: Id, val: E)
    ensures Mutated(k, id, AddOp(val)) == AworAdd(k, id, val) && Delta(k, id, AddOp(val)) == AworAddDelta(k, id, val)
    ensures Mutated(k, id, RmvOp(val)) == Drop(k, Matching(k, val))
    ensures Delta(k, id, RmvOp(val)) == DropDelta(Matching(k, val))
    ensures Mutated(k, id, ResetOp()) == Drop(k, k.ds.Keys) && Delta(k, id, ResetOp()) == DropDelta(k.ds.Keys)
  {
    assert Removing(k, AddOp(val)) == Removing(k, RmvOp(val)) == Matching(k, val);
    assert Removing(k, ResetOp()) == k.ds.Keys;
  }

  ghost predicate IsMutator<E(!new)>(op: Op<E>) {
    op == ResetOp() || exists v :: op == AddOp(v) || op == RmvOp(v)
  }

  ghost predicate AworRun<E(!new)>(states: seq<Sys<E>>, acts: seq<Act<E>>) {
    Run(states, acts) && forall m | 0 <= m < |acts| && acts[m].Mutate? :: IsMutator(acts[m].op)
  }

  // What may take a value out: a removal of it, or a reset.
  ghost predicate TakesOut<E>(op: Op<E>, v: E) {
    op == RmvOp(v) || op == ResetOp()
  }

  lemma HitsOfMutator<E(!new)>(op: Op<E>, v: E)
    requires IsMutator(op)
    ensures op.hits(v) <==> op == AddOp(v) || TakesOut(op, v)
    ensures op.put == Some(v) <==> op == AddOp(v)
  {
    if op != ResetOp() {
      var w :| op == AddOp(w) || op == RmvOp(w);
      assert op.hits(v) <==> w == v;
    }
  }

  lemma LoggedIsMutator<E(!new)>(states: seq<Sys<E>>, acts: seq<Act<E>>, n: nat, i: nat)
    requires AworRun(states, acts) && n < |states| && i < |states[n].log|
    ensures IsMutator(states[n].log[i].op)
  {
    LoggedWasPerformed(states, acts, n, i);
  }

  // Replicas that absorbed the same mutations are in the same state and read the same set.
  lemma StrongEventualConsistency<E(!new)>(states: seq<Sys<E>>, acts: seq<Act<E>>, n: nat, q: Id, r: Id)
    requires AworRun(states, acts) && n < |states|
    requires q in states[n].reps && r in states[n].reps
    requires states[n].reps[q].events == states[n].reps[r].events
    ensures states[n].reps[q].state == states[n].reps[r].state
    ensures AworRead(states[n].reps[q].state) == AworRead(states[n].reps[r].state)
  {
    SameEventsSameStateInRun(states, acts, n, q, r);
  }

  // An absorbed add that no absorbed mutation of its value, and no absorbed reset, has seen is read.
  lemma AddWins<E(!new)>(states: seq<Sys<E>>, acts: seq<Act<E>>, n: nat, r: Id, i: nat, v: E)
    requires AworRun(states, acts) && n < |states| && r in states[n].reps
    requires i in states[n].reps[r].events && i < |states[n].log| && states[n].log[i].op == AddOp(v)
    requires forall j | j in states[n].reps[r].events && j < |states[n].log| ::
               states[n].log[j].op == AddOp(v) || TakesOut(states[n].log[j].op, v) ==> i !in states[n].log[j].seen
    ensures v in AworRead(states[n].reps[r].state)
  {
    var log := states[n].log;
    forall j: nat | j in states[n].reps[r].events && j < |log| && log[j].op.hits(v)
      ensures i !in log[j].seen
    {
      LoggedIsMutator(states, acts, n, j);
      HitsOfMutator(log[j].op, v);
    }
    UnhitPutIsStored(states, acts, n, r, i, v);
  }

  // Some visible add of v was seen by no visible removal of v and by no visible reset.
  ghost predicate StandingAdd<E>(log: seq<Event<E>>, events: set<nat>, i: nat, v: E) {
    && i in events && i < |log| && log[i].op == AddOp(v)
    && forall j | j in events && j < |log| && TakesOut(log[j].op, v) :: i !in log[j].seen
  }

  // With whole-state shipping, a replica reads exactly the values with a standing add: the
  // specification of an observed-remove set, which mentions no dots.
  lemma ObservedRemoveSet<E(!new)>(states: seq<Sys<E>>, acts: seq<Act<E>>, n: nat, r: Id, v: E)
    requires AworRun(states, acts) && WholeStates(acts) && n < |states| && r in states[n].reps
    ensures v in AworRead(states[n].reps[r].state) <==>
            exists i: nat :: StandingAdd(states[n].log, states[n].reps[r].events, i, v)
  {
    StoredIsStanding(states, acts, n, r, v);
    var log, events := states[n].log, states[n].reps[r].events;
    forall i: nat
      ensures Standing(log, events, i, v) <==> StandingAdd(log, events, i, v)
    {
      forall j: nat | j < |log|
        ensures log[j].op.hits(v) && log[j].op.put != Some(v) <==> TakesOut(log[j].op, v)
        ensures log[j].op.put == Some(v) <==> log[j].op == AddOp(v)
      {
        LoggedIsMutator(states, acts, n, j);
        HitsOfMutator(log[j].op, v);
      }
    }
  }
}

// What they say about remove-wins sets.
module RworRuns {
  import opened Basics
  import opened DotContexts
  import opened DotKernels
  import opened DotTypes
  import opened KernelRuns

  ghost function AddOp<E>(v: E): Op<(E, bool)> {
    Op(Some((v, true)), (t: (E, bool)) => t.0 == v)
  }

  ghost function RmvOp<E>(v: E): Op<(E, bool)> {
    Op(Some((v, false)), (t: (E, bool)) => t.0 == v)
  }

  ghost function ResetOp<E>(): Op<(E, bool)> {
    Op(None, (t: (E, bool)) => true)
  }

  lemma MutatorsOfRwor<E>(k: Kernel<(E, bool)>, id: Id, val: E)
    ensures Mutated(k, id, AddOp(val)) == RworMark(k, id, val, true)
    ensures Delta(k, id, AddOp(val)) == RworMarkDelta(k, id, val, true)
    ensures Mutated(k, id, RmvOp(val)) == RworMark(k, id, val, false)
    ensures Delta(k, id, RmvOp(val)) == RworMarkDelta(k, id, val, false)
    ensures Mutated(k, id, ResetOp()) == Drop(k, k.ds.Keys) && Delta(k, id, ResetOp()) == DropDelta(k.ds.Keys)
  {
    forall d | d in k.ds
      ensures k.ds[d].0 == val <==> d in Tokens(k, val)
    {
      var (v, flag) := k.ds[d];
      assert v == val ==> if flag then k.ds[d] == (val, true) else k.ds[d] == (val, false);
    }
    assert Removing(k, AddOp(val)) == Removing(k, RmvOp(val)) == Tokens(k, val);
    assert Removing(k, ResetOp()) == k.ds.Keys;
  }

  ghost predicate IsMutator<E(!new)>(op: Op<(E, bool)>) {
    op == ResetOp() || exists v :: op == AddOp(v) || op == RmvOp(v)
  }

  ghost predicate RworRun<E(!new)>(states: seq<Sys<(E, bool)>>, acts: seq<Act<(E, bool)>>) {
    Run(states, acts) && forall m | 0 <= m < |acts| && acts[m].Mutate? :: IsMutator(acts[m].op)
  }

  ghost function Marking<E>(v: E, present: bool): Op<(E, bool)> {
    if present then AddOp(v) else RmvOp(v)
  }

  lemma HitsOfMutator<E(!new)>(op: Op<(E, bool)>, v: E, present: bool)
    requires IsMutator(op)
    ensures op.hits((v, present)) <==> op == AddOp(v) || op == RmvOp(v) || op == ResetOp()
    ensures op.put == Some((v, present)) <==> op == Marking(v, present)
  {
    if op != ResetOp() {
      var w :| op == AddOp(w) || op == RmvOp(w);
      assert op.hits((v, present)) <==> w == v;
    }
  }

  lemma LoggedIsMutator<E(!new)>(states: seq<Sys<(E, bool)>>, acts: seq<Act<(E, bool)>>, n: nat, i: nat)
    requires RworRun(states, acts) && n < |states| && i < |states[n].log|
    ensures IsMutator(states[n].log[i].op)
  {
    LoggedWasPerformed(states, acts, n, i);
  }

  // An absorbed removal that no absorbed mutation of its value, and no absorbed reset, has seen wins
  // over every add, however many there are.
  lemma RemoveWins<E(!new)>(states: seq<Sys<(E, bool)>>, acts: seq<Act<(E, bool)>>, n: nat, r: Id, i: nat, v: E)
    requires RworRun(states, acts) && n < |states| && r in states[n].reps
    requires i in states[n].reps[r].events && i < |states[n].log| && states[n].log[i].op == RmvOp(v)
    requires forall j | j in states[n].reps[r].events && j < |states[n].log| ::
               states[n].log[j].op in {AddOp(v), RmvOp(v), ResetOp()} ==> i !in states[n].log[j].seen
    ensures !RworIn(states[n].reps[r].state, v)
  {
    var log := states[n].log;
    forall j: nat | j in states[n].reps[r].events && j < |log| && log[j].op.hits((v, false))
      ensures i !in log[j].seen
    {
      LoggedIsMutator(states, acts, n, j);
      HitsOfMutator(log[j].op, v, false);
    }
    UnhitPutIsStored(states, acts, n, r, i, (v, false));
  }

  // Some visible add (or removal) of v was seen by no visible removal (or add) of v and by no reset.
  ghost predicate StandingMark<E>(log: seq<Event<(E, bool)>>, events: set<nat>, i: nat, v: E, present: bool) {
    && i in events && i < |log| && log[i].op == Marking(v, present)
    && forall j | j in events && j < |log| && log[j].op in {Marking(v, !present), ResetOp()} :: i !in log[j].seen
  }

  lemma StandingIsStandingMark<E(!new)>(
    states: seq<Sys<(E, bool)>>, acts: seq<Act<(E, bool)>>, n: nat, events: set<nat>, i: nat, v: E, present: bool)
    requires RworRun(states, acts) && n < |states|
    ensures Standing(states[n].log, events, i, (v, present)) <==> StandingMark(states[n].log, events, i, v, present)
  {
    var log := states[n].log;
    forall j: nat | j < |log|
      ensures log[j].op.put == Some((v, present)) <==> log[j].op == Marking(v, present)
      ensures log[j].op.hits((v, present)) && log[j].op.put != Some((v, present)) <==>
              log[j].op in {Marking(v, !present), ResetOp()}
    {
      LoggedIsMutator(states, acts, n, j);
      HitsOfMutator(log[j].op, v, present);
    }
  }

  // With whole-state shipping, a replica reads exactly the values with a standing add and no
  // standing removal.
  lemma RemoveWinsSet<E(!new)>(states: seq<Sys<(E, bool)>>, acts: seq<Act<(E, bool)>>, n: nat, r: Id, v: E)
    requires RworRun(states, acts) && WholeStates(acts) && n < |states| && r in states[n].reps
    ensures RworIn(states[n].reps[r].state, v) <==>
            && (exists i: nat :: StandingMark(states[n].log, states[n].reps[r].events, i, v, true))
            && !(exists i: nat :: StandingMark(states[n].log, states[n].reps[r].events, i, v, false))
  {
    var log, events := states[n].log, states[n].reps[r].events;
    StoredIsStanding(states, acts, n, r, (v, true));
    StoredIsStanding(states, acts, n, r, (v, false));
    forall i: nat, present: bool
      ensures Standing(log, events, i, (v, present)) <==> StandingMark(log, events, i, v, present)
    {
      StandingIsStandingMark(states, acts, n, events, i, v, present);
    }
  }
}

// What they say about multi-value registers.
module MvRuns {
  import opened Basics
  import opened DotContexts
  import opened DotKernels
  import opened DotTypes
  import opened KernelRuns

  ghost function WriteOp<V>(v: V): Op<V> {
    Op(Some(v), x => true)
  }

  ghost function ResetOp<V>(): Op<V> {
    Op(None, x => true)
  }

  lemma MutatorsOfMv<V>(k: Kernel<V>, id: Id, val: V)
    ensures Mutated(k, id, WriteOp(val)) == MvWrite(k, id, val)
    ensures Delta(k, id, WriteOp(val)) == MvWriteDelta(k, id, val)
    ensures Mutated(k, id, ResetOp()) == Drop(k, k.ds.Keys) && Delta(k, id, ResetOp()) == DropDelta(k.ds.Keys)
  {
    assert Removing(k, WriteOp(val)) == Removing(k, ResetOp()) == k.ds.Keys;
  }

  ghost predicate IsMutator<V(!new)>(op: Op<V>) {
    op == ResetOp() || exists v :: op == WriteOp(v)
  }

  ghost predicate MvRun<V(!new)>(states: seq<Sys<V>>, acts: seq<Act<V>>) {
    Run(states, acts) && forall m | 0 <= m < |acts| && acts[m].Mutate? :: IsMutator(acts[m].op)
  }

  // Some visible write of v was seen only by further writes of v.
  ghost predicate Current<V>(log: seq<Event<V>>, events: set<nat>, i: nat, v: V) {
    && i in events && i < |log| && log[i].op == WriteOp(v)
    && forall j | j in events && j < |log| && log[j].op != WriteOp(v) :: i !in log[j].seen
  }

  // With whole-state shipping, a replica reads exactly the current values.
  lemma ReadsCurrentValues<V(!new)>(states: seq<Sys<V>>, acts: seq<Act<V>>, n: nat, r: Id, v: V)
    requires MvRun(states, acts) && WholeStates(acts) && n < |states| && r in states[n].reps
    ensures v in states[n].reps[r].state.ds.Values <==>
            exists i: nat :: Current(states[n].log, states[n].reps[r].events, i, v)
  {
    StoredIsStanding(states, acts, n, r, v);
    var log, events := states[n].log, states[n].reps[r].events;
    forall j: nat | j < |log|
      ensures log[j].op.hits(v) && (log[j].op.put == Some(v) <==> log[j].op == WriteOp(v))
    {
      LoggedWasPerformed(states, acts, n, j);
      assert IsMutator(log[j].op);
    }
    forall i: nat
      ensures Standing(log, events, i, v) <==> Current(log, events, i, v)
    {
    }
  }
}
