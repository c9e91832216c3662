/** Updates are applied in the order in which they were accepted, and a sealed
    journal can always be brought to the point where everyone is answered. */
module UpdateOrder {
  import opened Basics
  import opened FilterPublication
  import opened UpdateJournal

  // ------------------------------------------------------------------ order

  /** The queue is in the order of acceptance. */
  predicate QueueOrdered(j: Journal) {
    && (forall i, k :: 0 <= i < k < |j.pending| ==> j.pending[i].id < j.pending[k].id)
    && (forall k :: 0 <= k < |j.pending| ==> j.pending[k].id < j.accepted)
  }

  /** What was committed, and what is in the slot, came before everything in the queue. */
  predicate QueueLater(j: Journal) {
    && (forall id, k :: id in j.commits && 0 <= k < |j.pending| ==> id < j.pending[k].id)
    && (j.slot.Some? ==> j.slot.value.id < j.accepted && forall k :: 0 <= k < |j.pending| ==> j.slot.value.id < j.pending[k].id)
  }

  /** The command in the slot comes after everything that was committed before it. */
  predicate SlotLater(j: Journal) {
    j.slot.Some? && j.slot.value.phase != Committed ==> forall id :: id in j.commits ==> id < j.slot.value.id
  }

  predicate CommitsOrdered(j: Journal) {
    && (forall a, b :: a in j.commits && b in j.commits && a < b ==> j.commits[a].generation < j.commits[b].generation)
    && (forall id :: id in j.commits ==> id < j.accepted && j.commits[id].generation <= j.version.generation)
  }

  predicate Ordered(j: Journal) {
    QueueOrdered(j) && QueueLater(j) && SlotLater(j) && CommitsOrdered(j)
  }

  lemma AcceptOrdered(j: Journal, bytes: nat, t: Journal)
    requires Ordered(j) && t == Accept(j, bytes)
    ensures Ordered(t)
  {
  }

  lemma TakeOrdered(j: Journal, t: Journal)
    requires Ordered(j) && j.pending != [] && t == TakeFront(j)
    ensures Ordered(t)
  {
  }

  lemma CommitOrdered(j: Journal, t: Journal)
    requires Ordered(j) && Enabled(j, AcceptCommit) && t == Apply(j, AcceptCommit)
    requires j.slot.value.target.value.generation == j.version.generation + 1
    ensures Ordered(t)
  {
  }

  /** Nothing is committed, nothing added to the queue, and the slot keeps its command or loses it. */
  predicate KeepsPlaces(j: Journal, t: Journal) {
    && t.commits == j.commits && t.version == j.version && t.accepted == j.accepted && (t.pending == j.pending || t.pending == [])
    && (t.slot.Some? ==>
          && j.slot.Some? && t.slot.value.id == j.slot.value.id
          && (j.slot.value.phase == Committed ==> t.slot.value.phase == Committed))
  }

  lemma OtherOrdered(j: Journal, t: Journal)
    requires Ordered(j) && KeepsPlaces(j, t)
    ensures Ordered(t)
  {
  }

  lemma ReconcileFrame(j: Journal, r: Journal)
    requires r == Reconcile(j)
    ensures r == j.(slot := r.slot) && (r.slot.Some? <==> j.slot.Some?)
    ensures r.slot.Some? ==> r.slot.value.id == j.slot.value.id && (j.slot.value.phase == Committed ==> r.slot.value.phase == Committed)
  {
  }

  lemma EpilogueKeepsPlaces(j: Journal, r: Journal, t: Journal)
    requires r == Reconcile(j) && t == Epilogue(j)
    ensures KeepsPlaces(j, t)
  {
    ReconcileFrame(j, r);
    assert t.slot == r.slot || t.slot.None?;
  }

  lemma SuccessorKeepsPlaces(j: Journal, r: Journal, t: Journal)
    requires r == Reconcile(j) && r.slot.Some? && t == r.(settling := r.settling + [r.slot.value], slot := None)
    ensures KeepsPlaces(j, t)
  {
    ReconcileFrame(j, r);
  }

  lemma SuccessorStep(j: Journal, t: Journal)
    requires Enabled(j, TakeBySuccessor) && t == Apply(j, TakeBySuccessor)
    ensures KeepsPlaces(j, t)
  {
    var r := Reconcile(j);
    ReconcileFrame(j, r);
    SuccessorKeepsPlaces(j, r, t);
  }

  lemma WriterKeepsPlaces(j: Journal, a: Action, t: Journal)
    requires Enabled(j, a) && t == Apply(j, a) && OfWriter(a)
    ensures KeepsPlaces(j, t)
  {
  }

  lemma QueueKeepsPlaces(j: Journal, a: Action, t: Journal)
    requires Enabled(j, a) && t == Apply(j, a) && (a.SealQueue? || a.CancelOne? || a.SettleOne? || a.CompleteSlot?)
    ensures KeepsPlaces(j, t)
  {
  }

  lemma SignalKeepsPlaces(j: Journal, a: Action, t: Journal)
    requires Enabled(j, a) && t == Apply(j, a)
    requires a.StartRunner? || a.Converge? || a.SealPublication? || a.RequestDetach? || a.LeaveIdle?
    ensures KeepsPlaces(j, t)
  {
  }

  lemma OtherStepOrdered(j: Journal, a: Action, t: Journal)
    requires Ordered(j) && Enabled(j, a) && t == Apply(j, a) && !a.Submit? && !a.Take? && !a.AcceptCommit?
    ensures Ordered(t)
  {
    if a.FinishRun? {
      EpilogueKeepsPlaces(j, Reconcile(j), t);
    } else if a.TakeBySuccessor? {
      SuccessorStep(j, t);
    } else if OfWriter(a) {
      WriterKeepsPlaces(j, a, t);
    } else if a.SealQueue? || a.CancelOne? || a.SettleOne? || a.CompleteSlot? {
      QueueKeepsPlaces(j, a, t);
    } else {
      SignalKeepsPlaces(j, a, t);
    }
    OtherOrdered(j, t);
  }

  lemma StepKeepsOrder(j: Journal, a: Action, t: Journal, base: nat)
    requires Inv(j, base) && Ordered(j) && Moves(j, a, t)
    ensures Ordered(t)
  {
    if a.Submit? {
      AcceptOrdered(j, a.bytes, t);
    } else if a.Take? {
      TakeOrdered(j, t);
    } else if a.AcceptCommit? {
      CommitOrdered(j, t);
    } else {
      OtherStepOrdered(j, a, t);
    }
  }

  lemma {:induction false} OrderAlways(states: seq<Journal>, actions: seq<Action>, k: nat)
    requires IsRun(states, actions) && k < |states|
    ensures Ordered(states[k])
  {
    if k > 0 {
      OrderAlways(states, actions, k - 1);
      InvAlways(states, actions, k - 1);
      StepKeepsOrder(states[k - 1], actions[k - 1], states[k], states[0].version.generation);
    }
  }

  /** Of two updates that were both published, the one accepted first has the lower generation, in every run. */
  lemma PublishedInOrder(states: seq<Journal>, actions: seq<Action>, k: nat, first: nat, second: nat)
    requires IsRun(states, actions) && k < |states| && first < second
    requires first in states[k].outcomes && second in states[k].outcomes
    requires states[k].outcomes[first].Published? && states[k].outcomes[second].Published?
    ensures states[k].outcomes[first].version.generation < states[k].outcomes[second].version.generation
  {
    OrderAlways(states, actions, k);
    CommittedAnswers(states, actions, k, first);
    CommittedAnswers(states, actions, k, second);
  }

  // --------------------------------------------------------------- progress

  /** What a sealed journal has still to do. */
  function Work(j: Journal): nat {
    |j.cancelling| + |j.settling| + SlotWork(j) + One(j.converged < j.version.generation)
  }

  function SlotWork(j: Journal): nat {
    if j.slot.None? || j.stage == Settled then 0 else if j.stage.Decided? then 1 else 2
  }

  /** What to do next with the command in the slot. */
  function SlotStep(j: Journal): Action {
    if j.stage.Decided? then CompleteSlot
    else if j.stage.Applying? && j.slot.Some? && j.slot.value.phase == Building then
      if j.stage.credit then FailBuild(ShuttingDown) else StopBeforeCredit
    else if j.stage.Applying? && j.slot.Some? && j.slot.value.phase == Publishing then RejectCommit(ShuttingDown)
    else if j.converged < j.version.generation then Converge(j.version.generation)
    else if j.stage.Applying? then ObserveConverged
    else TakeBySuccessor
  }

  function NextStep(j: Journal): Action {
    if j.cancelling != [] then CancelOne(0) else if j.settling != [] then SettleOne(0) else SlotStep(j)
  }

  predicate Idle(j: Journal) {
    j.cancelling == [] && j.settling == [] && SlotWork(j) == 0
  }

  lemma SlotProgress(j: Journal, base: nat)
    requires Inv(j, base) && j.isSealed && SlotWork(j) > 0
    ensures Enabled(j, SlotStep(j))
    ensures var t := Apply(j, SlotStep(j)); t.isSealed && Work(t) < Work(j) && t.accepted == j.accepted
  {
  }

  lemma ListProgress(j: Journal)
    requires j.isSealed && (j.cancelling != [] || j.settling != [])
    ensures Enabled(j, NextStep(j))
    ensures var t := Apply(j, NextStep(j)); t.isSealed && Work(t) < Work(j) && t.accepted == j.accepted
  {
  }

  /** Paths from a journal. */
  ghost predicate IsPath(j: Journal, states: seq<Journal>, actions: seq<Action>) {
    && |states| == |actions| + 1 && states[0] == j
    && forall k {:trigger actions[k]} :: 0 <= k < |actions| ==> Moves(states[k], actions[k], states[k + 1])
  }

  lemma PathCons(j: Journal, a: Action, t: Journal, states: seq<Journal>, actions: seq<Action>)
    requires Moves(j, a, t) && IsPath(t, states, actions)
    ensures IsPath(j, [j] + states, [a] + actions)
  {
  }

  lemma IdleAnswered(j: Journal, base: nat)
    requires Inv(j, base) && j.isSealed && Idle(j)
    ensures forall id: nat :: id < j.accepted ==> id in j.outcomes
  {
    forall id: nat | id < j.accepted ensures id in j.outcomes {
      assert Owed(j, id) == 0;
    }
  }

  lemma WorkStep(j: Journal, base: nat) returns (t: Journal)
    requires Inv(j, base) && j.isSealed && !Idle(j)
    ensures Moves(j, NextStep(j), t) && Inv(t, base) && t.isSealed && Work(t) < Work(j) && t.accepted == j.accepted
  {
    if j.cancelling != [] || j.settling != [] {
      ListProgress(j);
    } else {
      SlotProgress(j, base);
    }
    t := Apply(j, NextStep(j));
    StepKeepsInv(j, NextStep(j), t, base);
  }

  /** A sealed journal can be worked off: some path answers every update that was accepted. */
  lemma {:induction false} WorkedOff(j: Journal, base: nat) returns (states: seq<Journal>, actions: seq<Action>)
    requires Inv(j, base) && j.isSealed
    ensures IsPath(j, states, actions)
    ensures forall id: nat :: id < j.accepted ==> id in states[|actions|].outcomes
    decreases Work(j)
  {
    if Idle(j) {
      states, actions := [j], [];
      IdleAnswered(j, base);
    } else {
      var t := WorkStep(j, base);
      states, actions := WorkedOff(t, base);
      PathCons(j, NextStep(j), t, states, actions);
      states, actions := [j] + states, [NextStep(j)] + actions;
    }
  }

  lemma SealSteps(j: Journal, base: nat) returns (closed: Journal, over: Journal)
    requires Inv(j, base)
    ensures Moves(j, SealPublication, closed) && Moves(closed, SealQueue, over)
    ensures Inv(over, base) && over.isSealed && over.accepted == j.accepted
  {
    closed := Apply(j, SealPublication);
    StepKeepsInv(j, SealPublication, closed, base);
    over := Apply(closed, SealQueue);
    StepKeepsInv(closed, SealQueue, over, base);
  }

  /** Whatever happened so far, nobody is left without an answer for good: sealing and working off answers everyone. */
  lemma EveryoneCanBeAnswered(states: seq<Journal>, actions: seq<Action>, k: nat) returns (later: seq<Journal>, steps: seq<Action>)
    requires IsRun(states, actions) && k < |states|
    ensures IsPath(states[k], later, steps)
    ensures forall id: nat :: id < states[k].accepted ==> id in later[|steps|].outcomes
  {
    InvAlways(states, actions, k);
    var base := states[0].version.generation;
    var closed, over := SealSteps(states[k], base);
    later, steps := WorkedOff(over, base);
    PathCons(closed, SealQueue, over, later, steps);
    later, steps := [closed] + later, [SealQueue] + steps;
    PathCons(states[k], SealPublication, closed, later, steps);
    later, steps := [states[k]] + later, [SealPublication] + steps;
  }
}
