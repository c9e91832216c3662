/**
 * The publication protocol and the update journal stepped together: what an
 * answer to an update means for the workers, and what a failed update leaves
 * behind.
 *
 * Steps in which the controller calls the publication are shared. The copies of
 * the publication's state that the journal keeps, and the obligations that the
 * publication protocol puts on its callers, are proved here, not assumed.
 */
module ReportedUpdates {
  import opened Basics
  import opened FilterPublication
  import Protocol = PublicationProtocol
  import Journal = UpdateJournal

  /** What the publication looked like when the writer took its command. */
  datatype Taken = Taken(id: nat, version: Version, creditHeld: bool)

  /** `teardownSealed` is the position of the teardown thread, which seals and then detaches. */
  datatype Joint = Joint(s: Protocol.State, j: Journal.Journal, teardownSealed: bool, taken: Taken)

  datatype Step =
    | Publication(a: Protocol.Action)
    | Update(b: Journal.Action)
    | Both(a: Protocol.Action, b: Journal.Action)
    | TeardownSeal
    | TeardownDetach

  // ------------------------------------------------------- steps

  /** Steps of the publication that no controller takes part in. */
  predicate Alone(a: Protocol.Action) {
    && !a.AcquireCredit? && !a.ReleaseCredit? && !a.CommitSnapshot? && !a.Seal? && !a.DetachActive?
    && !a.BeginDestroy? && !a.FinishTeardown?
  }

  /** Steps of the controller that do not call or observe the publication. */
  predicate Internal(b: Journal.Action) {
    && !b.GetCredit? && !b.FailBuild? && !b.RejectCommit? && !b.AcceptCommit? && !b.SealPublication? && !b.Converge?
  }

  /** Why the commit of the command in the slot would be refused. */
  function Refusal(x: Joint): Option<CommitError> {
    if x.j.slot.None? || x.j.slot.value.target.None? then None
    else
      var target := x.j.slot.value.target.value;
      CommitFailure(x.s.p, Some(Snapshot(0, target.generation, target.ruleCount, 0)))
  }

  predicate Refused(x: Joint) {
    Refusal(x).Some?
  }

  predicate IsPublishing(j: Journal.Journal) {
    j.stage == Journal.Applying(true) && j.slot.Some? && j.slot.value.phase == Journal.Publishing && j.slot.value.target.Some?
  }

  /** The tests of the code for a shared step; the journal's copies of the publication are not consulted. */
  predicate CanBoth(x: Joint, a: Protocol.Action, b: Journal.Action)
    requires |x.s.p.registry| == |x.s.p.epochs|
  {
    match b
    case GetCredit =>
      a.AcquireCredit? && Protocol.Enabled(x.s, a) && Journal.IsBuilding(x.j, false) && x.s.p.version.generation != MAX_WORD
    case FailBuild(_) => a.ReleaseCredit? && x.s.scan == Protocol.Idle && Journal.Enabled(x.j, b)
    case RejectCommit(code) =>
      && a.ReleaseCredit? && x.s.scan == Protocol.Idle && IsPublishing(x.j) && Refused(x)
      && code == if Refusal(x) == Some(PublicationSealed) then Journal.ShuttingDown else Journal.InternalError
    case AcceptCommit =>
      && a.CommitSnapshot? && Protocol.Enabled(x.s, a) && IsPublishing(x.j)
      && Version(a.candidate.generation, a.candidate.ruleCount) == x.j.slot.value.target.value
    case SealPublication => a.Seal? && Protocol.Enabled(x.s, a)
    case Converge(g) =>
      (a.BeginDestroy? || a.FinishTeardown?) && Protocol.Enabled(x.s, a) && g == Protocol.Apply(x.s, a).p.lastConverged
    case LeaveIdle =>
      a.DetachActive? && Protocol.Unlocked(x.s) && x.j.stage == Journal.Waiting && x.j.detachRequested && x.j.pending == []
    case _ => false
  }

  predicate Can(x: Joint, step: Step)
    requires |x.s.p.registry| == |x.s.p.epochs|
  {
    match step
    case Publication(a) => Alone(a) && Protocol.Enabled(x.s, a)
    case Update(b) => Internal(b) && Journal.Enabled(x.j, b)
    case Both(a, b) => CanBoth(x, a, b)
    case TeardownSeal => Protocol.Enabled(x.s, Protocol.Seal)
    case TeardownDetach => Protocol.Unlocked(x.s) && x.teardownSealed
  }

  /** The step of the publication, if any. */
  function OnPublication(step: Step): Option<Protocol.Action> {
    match step
    case Publication(a) => Some(a)
    case Both(a, _) => Some(a)
    case TeardownSeal => Some(Protocol.Seal)
    case TeardownDetach => Some(Protocol.DetachActive)
    case Update(_) => None
  }

  /** The step of the journal, if any. */
  function OnJournal(step: Step): Option<Journal.Action> {
    match step
    case Update(b) => Some(b)
    case Both(_, b) => Some(b)
    case TeardownSeal => Some(Journal.SealPublication)
    case _ => None
  }

  /** Where obligations of the caller were not met, nothing is said about the outcome. */
  predicate PublicationMoves(s: Protocol.State, a: Option<Protocol.Action>, t: Protocol.State) {
    if a.None? then t == s
    else |s.p.registry| == |s.p.epochs| ==> Protocol.Enabled(s, a.value) ==> t == Protocol.Apply(s, a.value)
  }

  predicate JournalMoves(j: Journal.Journal, b: Option<Journal.Action>, i: Journal.Journal) {
    if b.None? then i == j
    else Journal.Enabled(j, b.value) ==> i == Journal.Apply(j, b.value)
  }

  /** The command the writer takes next. */
  function Front(j: Journal.Journal): nat {
    if j.pending == [] then 0 else j.pending[0].id
  }

  predicate Moves(x: Joint, step: Step, y: Joint)
    requires |x.s.p.registry| == |x.s.p.epochs|
  {
    && Can(x, step)
    && PublicationMoves(x.s, OnPublication(step), y.s)
    && JournalMoves(x.j, OnJournal(step), y.j)
    && y.teardownSealed == (x.teardownSealed || step.TeardownSeal?)
    && y.taken == if step == Update(Journal.Take) then Taken(Front(x.j), x.s.p.version, x.s.p.creditHeld) else x.taken
  }

  // ------------------------------------------------------- invariant

  /** The journal's copies are exact, and the writer holds the credit exactly while it applies a command with it. */
  predicate Linked(s: Protocol.State, j: Journal.Journal) {
    && j.version == s.p.version && j.publicationSealed == s.p.isSealed && j.converged == s.p.lastConverged
    && (s.credit <==> j.stage == Journal.Applying(true))
    && (s.credit ==> s.p.version.generation != MAX_WORD)
  }

  /** The command in the slot has not committed, and will not if it is already decided. */
  predicate Uncommitted(j: Journal.Journal) {
    || (j.stage.Applying? && j.slot.Some? && j.slot.value.phase != Journal.Committed)
    || (j.stage.Decided? && j.stage.outcome.Failed?)
  }

  /** An uncommitted command has moved neither the version nor, once it holds none, the credit. */
  predicate Untouched(s: Protocol.State, j: Journal.Journal, taken: Taken) {
    Uncommitted(j) ==>
      && j.slot.Some? && j.slot.value.id == taken.id && s.p.version == taken.version
      && (s.p.creditHeld && j.stage != Journal.Applying(true) ==> taken.creditHeld)
  }

  ghost predicate Inv(x: Joint, base: nat) {
    && Protocol.Inv(x.s) && Journal.Inv(x.j, base) && Linked(x.s, x.j) && Untouched(x.s, x.j, x.taken)
    && (x.teardownSealed ==> x.s.p.isSealed)
  }

  // ------------------------------------------------------- what single steps leave alone

  /** The publication's side of a step that no controller takes part in. */
  predicate Quiet(s: Protocol.State, t: Protocol.State) {
    && t.p.version == s.p.version && t.p.isSealed == s.p.isSealed && t.p.lastConverged == s.p.lastConverged
    && t.credit == s.credit && (t.p.creditHeld ==> s.p.creditHeld)
  }

  lemma SupervisorQuiet(s: Protocol.State, a: Protocol.Action, t: Protocol.State)
    requires |s.p.registry| == |s.p.epochs| && Protocol.Enabled(s, a) && t == Protocol.Apply(s, a) && Protocol.OfSupervisor(a)
    ensures Quiet(s, t)
  {
  }

  lemma WorkerQuiet(s: Protocol.State, a: Protocol.Action, t: Protocol.State)
    requires |s.p.registry| == |s.p.epochs| && Protocol.Enabled(s, a) && t == Protocol.Apply(s, a) && Protocol.OfWorker(a)
    ensures Quiet(s, t)
  {
  }

  lemma LoadQuiet(s: Protocol.State, t: Protocol.State)
    requires Protocol.AtMember(s) && t == Protocol.Load(s)
    ensures Quiet(s, t)
  {
  }

  lemma ReclaimerQuiet(s: Protocol.State, a: Protocol.Action, t: Protocol.State)
    requires |s.p.registry| == |s.p.epochs| && Protocol.Enabled(s, a) && t == Protocol.Apply(s, a) && Alone(a)
    requires !Protocol.OfSupervisor(a) && !Protocol.OfWorker(a)
    ensures Quiet(s, t)
  {
    if Protocol.OfLoad(a) {
      LoadQuiet(s, t);
    }
  }

  lemma AloneQuiet(s: Protocol.State, a: Protocol.Action, t: Protocol.State)
    requires |s.p.registry| == |s.p.epochs| && Protocol.Enabled(s, a) && t == Protocol.Apply(s, a) && Alone(a)
    ensures Quiet(s, t)
  {
    if Protocol.OfSupervisor(a) {
      SupervisorQuiet(s, a, t);
    } else if Protocol.OfWorker(a) {
      WorkerQuiet(s, a, t);
    } else {
      ReclaimerQuiet(s, a, t);
    }
  }

  /** The journal's side of a step that does not call the publication. */
  predicate Reserved(j: Journal.Journal, b: Journal.Action, i: Journal.Journal) {
    && i.version == j.version && i.publicationSealed == j.publicationSealed && i.converged == j.converged
    && (i.stage == Journal.Applying(true) <==> j.stage == Journal.Applying(true))
    && (Uncommitted(i) && !b.Take? ==> Uncommitted(j) && j.slot.Some? && i.slot.Some? && i.slot.value.id == j.slot.value.id)
    && (b.Take? ==> i.slot.Some? && i.slot.value.id == Front(j))
  }

  lemma QueueReserved(j: Journal.Journal, b: Journal.Action, i: Journal.Journal)
    requires Journal.SlotOk(j) && Journal.OfQueue(b) && Journal.Enabled(j, b) && i == Journal.Apply(j, b)
    ensures Reserved(j, b, i)
  {
  }

  lemma WriterReserved(j: Journal.Journal, b: Journal.Action, i: Journal.Journal)
    requires Journal.SlotOk(j) && Internal(b) && (Journal.OfWriter(b) || b.CompleteSlot?) && Journal.Enabled(j, b) && i == Journal.Apply(j, b)
    ensures Reserved(j, b, i)
  {
  }

  lemma LifecycleReserved(j: Journal.Journal, b: Journal.Action, i: Journal.Journal)
    requires Journal.SlotOk(j) && Journal.Enabled(j, b) && i == Journal.Apply(j, b)
    requires b.StartRunner? || b.RequestDetach? || b.LeaveIdle? || b.FinishRun?
    ensures Reserved(j, b, i)
  {
  }

  lemma InternalReserved(j: Journal.Journal, b: Journal.Action, i: Journal.Journal)
    requires Journal.SlotOk(j) && Internal(b) && Journal.Enabled(j, b) && i == Journal.Apply(j, b)
    ensures Reserved(j, b, i)
  {
    if Journal.OfQueue(b) {
      QueueReserved(j, b, i);
    } else if Journal.OfWriter(b) || b.CompleteSlot? {
      WriterReserved(j, b, i);
    } else {
      LifecycleReserved(j, b, i);
    }
  }

  // ------------------------------------------------------- obligations discharged

  /** Only the holder returns the credit, publication is sealed before it is detached, and no copy of the journal is stale. */
  lemma CallersAbide(x: Joint, step: Step, base: nat)
    requires Inv(x, base) && Can(x, step)
    ensures OnPublication(step).Some? ==> Protocol.Enabled(x.s, OnPublication(step).value)
    ensures OnJournal(step).Some? ==> Journal.Enabled(x.j, OnJournal(step).value)
  {
    match step
    case Both(a, b) => SharedAbides(x, a, b, base);
    case _ =>
  }

  lemma SharedAbides(x: Joint, a: Protocol.Action, b: Journal.Action, base: nat)
    requires Inv(x, base) && CanBoth(x, a, b)
    ensures Protocol.Enabled(x.s, a) && Journal.Enabled(x.j, b)
  {
    if b.Converge? {
      ConvergeAbides(x, a, Protocol.Apply(x.s, a));
    }
  }

  lemma ConvergeAbides(x: Joint, a: Protocol.Action, t: Protocol.State)
    requires Protocol.Inv(x.s) && (a.BeginDestroy? || a.FinishTeardown?) && Protocol.Enabled(x.s, a) && t == Protocol.Apply(x.s, a)
    ensures x.s.p.lastConverged <= t.p.lastConverged <= x.s.p.version.generation
    ensures t.p.version == x.s.p.version && t.p.isSealed == x.s.p.isSealed && t.credit == x.s.credit
    ensures t.p.creditHeld ==> x.s.p.creditHeld
  {
  }

  /** The commit of a command is refused only because publication was sealed meanwhile. */
  lemma RefusedOnlyWhenSealed(x: Joint, base: nat)
    requires Inv(x, base) && IsPublishing(x.j)
    ensures Refused(x) <==> x.s.p.isSealed
    ensures Refused(x) ==> Refusal(x) == Some(PublicationSealed)
  {
  }

  // ------------------------------------------------------- every step keeps the invariant

  lemma SealLinks(x: Joint, t: Protocol.State, i: Journal.Journal)
    requires Linked(x.s, x.j) && Untouched(x.s, x.j, x.taken)
    requires t == x.s.(p := x.s.p.(isSealed := true)) && i == x.j.(publicationSealed := true)
    ensures Linked(t, i) && Untouched(t, i, x.taken)
  {
  }

  lemma DetachQuiet(s: Protocol.State, t: Protocol.State)
    requires |s.p.registry| == |s.p.epochs| && Protocol.Enabled(s, Protocol.DetachActive) && t == Protocol.Apply(s, Protocol.DetachActive)
    ensures Quiet(s, t)
  {
  }

  /** Both sides take the shared step. */
  ghost predicate Shared(x: Joint, a: Protocol.Action, b: Journal.Action, t: Protocol.State, i: Journal.Journal, base: nat) {
    && Inv(x, base) && CanBoth(x, a, b) && Protocol.Enabled(x.s, a) && Journal.Enabled(x.j, b)
    && t == Protocol.Apply(x.s, a) && i == Journal.Apply(x.j, b)
  }

  lemma CreditLinks(x: Joint, a: Protocol.Action, b: Journal.Action, t: Protocol.State, i: Journal.Journal, base: nat)
    requires Shared(x, a, b, t, i, base) && b.GetCredit?
    ensures Linked(t, i) && Untouched(t, i, x.taken)
  {
  }

  lemma ReleaseLinks(x: Joint, a: Protocol.Action, b: Journal.Action, t: Protocol.State, i: Journal.Journal, base: nat)
    requires Shared(x, a, b, t, i, base) && (b.FailBuild? || b.RejectCommit?)
    ensures Linked(t, i) && Untouched(t, i, x.taken)
  {
  }

  lemma CommitLinks(x: Joint, a: Protocol.Action, b: Journal.Action, t: Protocol.State, i: Journal.Journal, base: nat)
    requires Shared(x, a, b, t, i, base) && b.AcceptCommit?
    ensures Linked(t, i) && Untouched(t, i, x.taken)
  {
    CommitLinked(x.s, x.j, a.candidate, t, i);
  }

  lemma CommitLinked(s: Protocol.State, j: Journal.Journal, c: Snapshot, t: Protocol.State, i: Journal.Journal)
    requires Linked(s, j) && IsPublishing(j) && Version(c.generation, c.ruleCount) == j.slot.value.target.value
    requires |s.p.registry| == |s.p.epochs| && Protocol.Enabled(s, Protocol.CommitSnapshot(c)) && t == Protocol.Apply(s, Protocol.CommitSnapshot(c))
    requires Journal.Enabled(j, Journal.AcceptCommit) && i == Journal.Apply(j, Journal.AcceptCommit)
    ensures Linked(t, i) && !Uncommitted(i)
  {
  }

  lemma ConvergeLinks(x: Joint, a: Protocol.Action, b: Journal.Action, t: Protocol.State, i: Journal.Journal, base: nat)
    requires Shared(x, a, b, t, i, base) && b.Converge?
    ensures Linked(t, i) && Untouched(t, i, x.taken)
  {
    ConvergeAbides(x, a, t);
  }

  lemma LeaveLinks(x: Joint, a: Protocol.Action, b: Journal.Action, t: Protocol.State, i: Journal.Journal, base: nat)
    requires Shared(x, a, b, t, i, base) && b.LeaveIdle?
    ensures Linked(t, i) && Untouched(t, i, x.taken)
  {
    DetachQuiet(x.s, t);
  }

  lemma SharedLinks(x: Joint, a: Protocol.Action, b: Journal.Action, t: Protocol.State, i: Journal.Journal, base: nat)
    requires Shared(x, a, b, t, i, base)
    ensures Linked(t, i) && Untouched(t, i, x.taken)
  {
    match b
    case GetCredit => CreditLinks(x, a, b, t, i, base);
    case FailBuild(_) => ReleaseLinks(x, a, b, t, i, base);
    case RejectCommit(_) => ReleaseLinks(x, a, b, t, i, base);
    case AcceptCommit => CommitLinks(x, a, b, t, i, base);
    case SealPublication => SealLinks(x, t, i);
    case Converge(_) => ConvergeLinks(x, a, b, t, i, base);
    case LeaveIdle => LeaveLinks(x, a, b, t, i, base);
  }

  /** Each side keeps its own invariant. */
  lemma SidesKeep(x: Joint, step: Step, y: Joint, base: nat)
    requires Inv(x, base) && Moves(x, step, y)
    ensures Protocol.Inv(y.s) && Journal.Inv(y.j, base)
  {
    CallersAbide(x, step, base);
    if OnPublication(step).Some? {
      Protocol.StepKeepsInv(x.s, OnPublication(step).value, y.s);
    }
    if OnJournal(step).Some? {
      Journal.StepKeepsInv(x.j, OnJournal(step).value, y.j, base);
    }
  }

  /** The two sides stay linked. */
  lemma LinkKept(x: Joint, step: Step, y: Joint, base: nat)
    requires Inv(x, base) && Moves(x, step, y)
    ensures Linked(y.s, y.j) && Untouched(y.s, y.j, y.taken) && (y.teardownSealed ==> y.s.p.isSealed)
  {
    match step
    case Publication(a) => AloneLinks(x, a, y, base);
    case Update(b) => InternalLinks(x, b, y, base);
    case Both(a, b) => BothLinks(x, a, b, y, base);
    case TeardownSeal => TeardownSealLinks(x, y, base);
    case TeardownDetach => TeardownDetachLinks(x, y, base);
  }

  lemma AloneLinks(x: Joint, a: Protocol.Action, y: Joint, base: nat)
    requires Inv(x, base) && Moves(x, Publication(a), y)
    ensures Linked(y.s, y.j) && Untouched(y.s, y.j, y.taken) && (y.teardownSealed ==> y.s.p.isSealed)
  {
    AloneQuiet(x.s, a, y.s);
    QuietLinks(x.s, x.j, y.s, x.taken);
  }

  lemma InternalLinks(x: Joint, b: Journal.Action, y: Joint, base: nat)
    requires Inv(x, base) && Moves(x, Update(b), y)
    ensures Linked(y.s, y.j) && Untouched(y.s, y.j, y.taken) && (y.teardownSealed ==> y.s.p.isSealed)
  {
    InternalReserved(x.j, b, y.j);
    ReservedLinks(x.s, x.j, b, y.j, x.taken, y.taken);
  }

  lemma BothLinks(x: Joint, a: Protocol.Action, b: Journal.Action, y: Joint, base: nat)
    requires Inv(x, base) && Moves(x, Both(a, b), y)
    ensures Linked(y.s, y.j) && Untouched(y.s, y.j, y.taken) && (y.teardownSealed ==> y.s.p.isSealed)
  {
    SharedAbides(x, a, b, base);
    SharedLinks(x, a, b, y.s, y.j, base);
    SealStays(x.j, b, y.j);
  }

  lemma SealStays(j: Journal.Journal, b: Journal.Action, i: Journal.Journal)
    requires Journal.Enabled(j, b) && i == Journal.Apply(j, b) && (!Internal(b) || b.LeaveIdle?)
    ensures j.publicationSealed ==> i.publicationSealed
  {
  }

  lemma TeardownSealLinks(x: Joint, y: Joint, base: nat)
    requires Inv(x, base) && Moves(x, TeardownSeal, y)
    ensures Linked(y.s, y.j) && Untouched(y.s, y.j, y.taken) && (y.teardownSealed ==> y.s.p.isSealed)
  {
    SealApplied(x.s, y.s, x.j, y.j);
    SealLinks(x, y.s, y.j);
  }

  lemma SealApplied(s: Protocol.State, t: Protocol.State, j: Journal.Journal, i: Journal.Journal)
    requires |s.p.registry| == |s.p.epochs| && Protocol.Enabled(s, Protocol.Seal)
    requires PublicationMoves(s, Some(Protocol.Seal), t) && JournalMoves(j, Some(Journal.SealPublication), i)
    ensures t == s.(p := s.p.(isSealed := true)) && i == j.(publicationSealed := true)
  {
  }

  lemma TeardownDetachLinks(x: Joint, y: Joint, base: nat)
    requires Inv(x, base) && Moves(x, TeardownDetach, y)
    ensures Linked(y.s, y.j) && Untouched(y.s, y.j, y.taken) && (y.teardownSealed ==> y.s.p.isSealed)
  {
    DetachQuiet(x.s, y.s);
    QuietLinks(x.s, x.j, y.s, x.taken);
  }

  lemma QuietLinks(s: Protocol.State, j: Journal.Journal, t: Protocol.State, taken: Taken)
    requires Linked(s, j) && Untouched(s, j, taken) && Quiet(s, t)
    ensures Linked(t, j) && Untouched(t, j, taken)
  {
  }

  lemma ReservedLinks(s: Protocol.State, j: Journal.Journal, b: Journal.Action, i: Journal.Journal, taken: Taken, after: Taken)
    requires Linked(s, j) && Untouched(s, j, taken) && Reserved(j, b, i)
    requires after == if b.Take? then Taken(Front(j), s.p.version, s.p.creditHeld) else taken
    ensures Linked(s, i) && Untouched(s, i, after)
  {
  }

  lemma StepKeepsInv(x: Joint, step: Step, y: Joint, base: nat)
    requires Inv(x, base) && Moves(x, step, y)
    ensures Inv(y, base)
  {
    SidesKeep(x, step, y, base);
    LinkKept(x, step, y, base);
  }

  // ------------------------------------------------------- whole runs

  ghost predicate Initial(x: Joint) {
    Protocol.Initial(x.s) && Journal.Initial(x.j) && Linked(x.s, x.j) && !x.teardownSealed
  }

  ghost predicate IsRun(xs: seq<Joint>, steps: seq<Step>) {
    && |xs| == |steps| + 1
    && Initial(xs[0])
    && forall k {:trigger steps[k]} :: 0 <= k < |steps| ==>
         |xs[k].s.p.registry| == |xs[k].s.p.epochs| && Moves(xs[k], steps[k], xs[k + 1])
  }

  lemma InitialInv(x: Joint)
    requires Initial(x)
    ensures Inv(x, x.j.version.generation)
  {
    Protocol.InvAlways([x.s], [], 0);
    Journal.InvAlways([x.j], [], 0);
  }

  lemma {:induction false} InvAlways(xs: seq<Joint>, steps: seq<Step>, k: nat)
    requires IsRun(xs, steps) && k < |xs|
    ensures Inv(xs[k], xs[0].j.version.generation)
  {
    if k == 0 {
      InitialInv(xs[0]);
    } else {
      InvAlways(xs, steps, k - 1);
      StepKeepsInv(xs[k - 1], steps[k - 1], xs[k], xs[0].j.version.generation);
    }
  }

  /** Both projections of a joint run are runs of their protocols: no obligation is ever violated. */
  lemma ObligationsMet(xs: seq<Joint>, steps: seq<Step>, k: nat)
    requires IsRun(xs, steps) && k < |steps|
    ensures OnPublication(steps[k]).Some? ==>
              && Protocol.Enabled(xs[k].s, OnPublication(steps[k]).value)
              && xs[k + 1].s == Protocol.Apply(xs[k].s, OnPublication(steps[k]).value)
    ensures OnJournal(steps[k]).Some? ==>
              && Journal.Enabled(xs[k].j, OnJournal(steps[k]).value)
              && xs[k + 1].j == Journal.Apply(xs[k].j, OnJournal(steps[k]).value)
  {
    InvAlways(xs, steps, k);
    assert Moves(xs[k], steps[k], xs[k + 1]);
    CallersAbide(xs[k], steps[k], xs[0].j.version.generation);
  }

  lemma AnswerVisible(x: Joint, base: nat, m: Member, id: nat)
    requires Inv(x, base) && m in x.s.locals && id in x.j.outcomes && x.j.outcomes[id].Published?
    ensures x.s.locals[m].generation >= x.j.outcomes[id].version.generation
  {
    assert id in x.j.commits;
  }

  /**
   * Whenever an update has been answered as published, every live worker
   * instance holds its generation or a later one.
   */
  lemma PublishedIsVisible(xs: seq<Joint>, steps: seq<Step>, k: nat, m: Member, id: nat)
    requires IsRun(xs, steps) && k < |xs| && m in xs[k].s.locals
    requires id in xs[k].j.outcomes && xs[k].j.outcomes[id].Published?
    ensures xs[k].s.locals[m].generation >= xs[k].j.outcomes[id].version.generation
  {
    InvAlways(xs, steps, k);
    AnswerVisible(xs[k], xs[0].j.version.generation, m, id);
  }

  lemma AnswerStays(x: Joint, step: Step, y: Joint, base: nat, id: nat)
    requires Inv(x, base) && Moves(x, step, y) && id in x.j.outcomes
    ensures id in y.j.outcomes && y.j.outcomes[id] == x.j.outcomes[id]
  {
    CallersAbide(x, step, base);
    if OnJournal(step).Some? {
      var b := OnJournal(step).value;
      if Journal.OfQueue(b) {
        Journal.QueueAnswersStay(x.j, b, y.j, id);
      } else {
        Journal.WriterAnswersStay(x.j, b, y.j, base, id);
      }
    }
  }

  lemma AnswerStaysAt(xs: seq<Joint>, steps: seq<Step>, k: nat, id: nat)
    requires IsRun(xs, steps) && k < |steps| && id in xs[k].j.outcomes
    ensures id in xs[k + 1].j.outcomes && xs[k + 1].j.outcomes[id] == xs[k].j.outcomes[id]
  {
    InvAlways(xs, steps, k);
    AnswerStays(xs[k], steps[k], xs[k + 1], xs[0].j.version.generation, id);
  }

  lemma {:induction false} AnswersStay(xs: seq<Joint>, steps: seq<Step>, k: nat, l: nat, id: nat)
    requires IsRun(xs, steps) && k <= l < |xs| && id in xs[k].j.outcomes
    ensures id in xs[l].j.outcomes && xs[l].j.outcomes[id] == xs[k].j.outcomes[id]
  {
    if k < l {
      AnswersStay(xs, steps, k, l - 1, id);
      AnswerStaysAt(xs, steps, l - 1, id);
    }
  }

  /** An update answered once is visible to every instance alive then or at any later time. */
  lemma PublishedStaysVisible(xs: seq<Joint>, steps: seq<Step>, k: nat, l: nat, m: Member, id: nat)
    requires IsRun(xs, steps) && k <= l < |xs| && m in xs[l].s.locals
    requires id in xs[k].j.outcomes && xs[k].j.outcomes[id].Published?
    ensures xs[l].s.locals[m].generation >= xs[k].j.outcomes[id].version.generation
  {
    AnswersStay(xs, steps, k, l, id);
    PublishedIsVisible(xs, steps, l, m, id);
  }

  /** The credit is held exactly by a pending record or by the writer that is applying a command with it. */
  lemma CreditAccount(xs: seq<Joint>, steps: seq<Step>, k: nat)
    requires IsRun(xs, steps) && k < |xs|
    ensures xs[k].s.p.creditHeld <==> xs[k].s.p.retired.pending || xs[k].j.stage == Journal.Applying(true)
    ensures !(xs[k].s.p.retired.pending && xs[k].j.stage == Journal.Applying(true))
  {
    InvAlways(xs, steps, k);
  }

  lemma {:induction false} TakenSince(xs: seq<Joint>, steps: seq<Step>, k: nat, l: nat)
    requires IsRun(xs, steps) && k < l < |xs| && steps[k] == Update(Journal.Take)
    requires forall i :: k < i < l ==> steps[i] != Update(Journal.Take)
    ensures xs[l].taken == Taken(Front(xs[k].j), xs[k].s.p.version, xs[k].s.p.creditHeld)
  {
    if k + 1 < l {
      TakenSince(xs, steps, k, l - 1);
      TakenStays(xs, steps, l - 1);
    } else {
      TakenNow(xs, steps, k);
    }
  }

  lemma TakenStays(xs: seq<Joint>, steps: seq<Step>, k: nat)
    requires IsRun(xs, steps) && k < |steps| && steps[k] != Update(Journal.Take)
    ensures xs[k + 1].taken == xs[k].taken
  {
    assert Moves(xs[k], steps[k], xs[k + 1]);
  }

  lemma TakenNow(xs: seq<Joint>, steps: seq<Step>, k: nat)
    requires IsRun(xs, steps) && k < |steps| && steps[k] == Update(Journal.Take)
    ensures xs[k + 1].taken == Taken(Front(xs[k].j), xs[k].s.p.version, xs[k].s.p.creditHeld)
  {
    assert Moves(xs[k], steps[k], xs[k + 1]);
  }

  /**
   * A command that fails leaves the published version as it was when the writer
   * took it, and leaves no credit held that was not held then; it never
   * committed.
   */
  lemma FailedUpdateRestores(xs: seq<Joint>, steps: seq<Step>, k: nat, l: nat)
    requires IsRun(xs, steps) && k < l < |xs| && steps[k] == Update(Journal.Take)
    requires forall i :: k < i < l ==> steps[i] != Update(Journal.Take)
    requires xs[l].j.stage.Decided? && xs[l].j.stage.outcome.Failed?
    ensures xs[l].s.p.version == xs[k].s.p.version && (xs[l].s.p.creditHeld ==> xs[k].s.p.creditHeld)
    ensures xs[l].j.slot.Some? && xs[l].j.slot.value.id == Front(xs[k].j) && Front(xs[k].j) !in xs[l].j.commits
  {
    TakenSince(xs, steps, k, l);
    InvAlways(xs, steps, l);
  }

  lemma SealedStep(x: Joint, step: Step, y: Joint, base: nat)
    requires Inv(x, base) && Moves(x, step, y) && x.s.p.isSealed
    ensures y.s.p.isSealed && y.s.p.version == x.s.p.version
  {
    CallersAbide(x, step, base);
    StepKeepsInv(x, step, y, base);
    match step
    case Publication(a) => AloneQuiet(x.s, a, y.s);
    case Update(b) =>
    case Both(a, b) => SharedKeepsVersion(x.j, b, y.j);
    case TeardownSeal =>
    case TeardownDetach =>
  }

  lemma SharedKeepsVersion(j: Journal.Journal, b: Journal.Action, i: Journal.Journal)
    requires Journal.Enabled(j, b) && i == Journal.Apply(j, b) && j.publicationSealed
    requires !Internal(b) || b.LeaveIdle?
    ensures i.version == j.version && i.publicationSealed
  {
  }

  lemma SealedAt(xs: seq<Joint>, steps: seq<Step>, k: nat)
    requires IsRun(xs, steps) && k < |steps| && xs[k].s.p.isSealed
    ensures xs[k + 1].s.p.isSealed && xs[k + 1].s.p.version == xs[k].s.p.version
  {
    InvAlways(xs, steps, k);
    SealedStep(xs[k], steps[k], xs[k + 1], xs[0].j.version.generation);
  }

  /** Sealing is final: afterwards nothing is published any more. */
  lemma {:induction false} SealIsFinal(xs: seq<Joint>, steps: seq<Step>, k: nat, l: nat)
    requires IsRun(xs, steps) && k <= l < |xs| && xs[k].s.p.isSealed
    ensures xs[l].s.p.isSealed && xs[l].s.p.version == xs[k].s.p.version
  {
    if k < l {
      SealIsFinal(xs, steps, k, l - 1);
      SealedAt(xs, steps, l - 1);
    }
  }

  lemma RejectionStep(x: Joint, step: Step, y: Joint, base: nat)
    requires Inv(x, base) && Moves(x, step, y) && step.Both? && step.b.RejectCommit?
    ensures step.b.code == Journal.ShuttingDown && x.s.p.isSealed
    ensures y.j.stage == Journal.Decided(Journal.Failed(Journal.ShuttingDown))
  {
    SharedAbides(x, step.a, step.b, base);
    RefusedOnlyWhenSealed(x, base);
  }

  /** An update that the publication refuses is answered as shutting down, in every run. */
  lemma RejectedIsShutdown(xs: seq<Joint>, steps: seq<Step>, k: nat)
    requires IsRun(xs, steps) && k < |steps| && steps[k].Both? && steps[k].b.RejectCommit?
    ensures steps[k].b.code == Journal.ShuttingDown && xs[k].s.p.isSealed
    ensures xs[k + 1].j.stage == Journal.Decided(Journal.Failed(Journal.ShuttingDown))
  {
    InvAlways(xs, steps, k);
    RejectionStep(xs[k], steps[k], xs[k + 1], xs[0].j.version.generation);
  }
}
