/** The journal of filter updates: submitters, the publisher thread A, any
    thread that seals, and the teardown successor, interleaved at the granularity
    of the controller's mutex. `cancelling` holds the commands a sealing thread
    swapped out of the queue and has not completed yet, `settling` the ones a
    successor took out of the slot. */
module UpdateJournal {
  import opened Basics
  import opened FilterPublication

  datatype Phase = Queued | Building | Publishing | Committed

  datatype ErrorCode =
    ShuttingDown | BuildFailed | GenerationExhausted | QueueFull | QueueBytesLimitExceeded | InternalError

  datatype Outcome = Published(version: Version) | Failed(code: ErrorCode)

  datatype Command = Command(id: nat, bytes: nat, phase: Phase, target: Option<Version>, published: Option<Version>)

  /** Where the publisher thread is. */
  datatype Stage =
    | Stopped
    | Waiting
    | Applying(credit: bool)
    | Decided(outcome: Outcome)
    | Settled
    | Leaving

  const MAXIMUM_PENDING: nat := 64

  datatype Journal = Journal(
    queueLimit: nat,
    pending: seq<Command>,
    slot: Option<Command>,
    queuedBytes: nat,
    isSealed: bool,
    detachRequested: bool,
    runnerActive: bool,
    stage: Stage,
    cancelling: seq<Command>,
    settling: seq<Command>,
    version: Version,
    publicationSealed: bool,
    converged: nat,
    accepted: nat,
    outcomes: map<nat, Outcome>,
    commits: map<nat, Version>)

  datatype Action =
    | Submit(bytes: nat)
    | StartRunner
    | Take
    | Exhausted
    | StopBeforeCredit
    | GetCredit
    | FailBuild(code: ErrorCode)
    | BeginPublish(ruleCount: nat)
    | RejectCommit(code: ErrorCode)
    | AcceptCommit
    | ObserveConverged
    | LoseReclaimer
    | CompleteSlot
    | ClearSlot
    | Converge(generation: nat)
    | SealPublication
    | SealQueue
    | RequestDetach
    | CancelOne(index: nat)
    | LeaveIdle
    | FinishRun
    | TakeBySuccessor
    | SettleOne(index: nat)

  // ------------------------------------------------------------------ steps

  /** Why a submission is turned away, in the order of the tests. */
  function Rejection(j: Journal, bytes: nat): Option<ErrorCode> {
    if j.isSealed then Some(ShuttingDown)
    else if |j.pending| >= MAXIMUM_PENDING then Some(QueueFull)
    else if bytes > j.queueLimit - Min(j.queuedBytes, j.queueLimit) then Some(QueueBytesLimitExceeded)
    else None
  }

  function Accept(j: Journal, bytes: nat): Journal {
    j.(pending := j.pending + [Command(j.accepted, bytes, Queued, None, None)],
       queuedBytes := j.queuedBytes + bytes,
       accepted := j.accepted + 1)
  }

  function TakeFront(j: Journal): Journal
    requires j.pending != []
  {
    j.(slot := Some(j.pending[0].(phase := Building)),
       pending := j.pending[1..],
       queuedBytes := j.queuedBytes - Min(j.queuedBytes, j.pending[0].bytes),
       stage := Applying(false))
  }

  function Swap(j: Journal): Journal {
    if j.isSealed then j
    else j.(isSealed := true,
            cancelling := j.cancelling + j.pending, pending := [], queuedBytes := 0)
  }

  function Without(s: seq<Command>, k: nat): seq<Command>
    requires k < |s|
  {
    s[..k] + s[k + 1..]
  }

  /** A writer that died while publishing left the truth in the publication. */
  function Reconcile(j: Journal): Journal {
    if j.slot.None? || j.slot.value.phase != Publishing || j.slot.value.target.None? then j
    else if j.version == j.slot.value.target.value then
      j.(slot := Some(j.slot.value.(phase := Committed, published := j.slot.value.target)))
    else j.(slot := Some(j.slot.value.(phase := Building, target := None)))
  }

  predicate IsCommitted(j: Journal) {
    j.slot.Some? && j.slot.value.phase == Committed && j.slot.value.published.Some?
  }

  predicate IsBuilding(j: Journal, credit: bool) {
    j.stage == Applying(credit) && j.slot.Some? && j.slot.value.phase == Building
  }

  /** A committed command while a runner waits or leaves: a successor that came before the runner may still take it. */
  predicate Lingers(j: Journal) {
    IsCommitted(j) && j.stage in {Waiting, Leaving}
  }

  /** The epilogue of the publisher thread, after it sealed. */
  function Epilogue(j: Journal): Journal {
    var r := Reconcile(j);
    if r.slot.Some? && r.slot.value.phase != Committed then
      r.(outcomes := r.outcomes[r.slot.value.id := Failed(InternalError)], slot := None,
         runnerActive := false, stage := Stopped)
    else r.(runnerActive := false, stage := Stopped)
  }

  /** What a successor will report for a command it took out of the slot. */
  function SuccessorOutcome(c: Command): Outcome {
    if c.phase == Committed && c.published.Some? then Published(c.published.value) else Failed(InternalError)
  }

  predicate Enabled(j: Journal, a: Action) {
    match a
    case Submit(bytes) => Rejection(j, bytes).None?
    case StartRunner => !j.runnerActive
    case Take => j.stage == Waiting && j.pending != []
    case Exhausted => IsBuilding(j, false) && j.version.generation == MAX_WORD
    case StopBeforeCredit => IsBuilding(j, false)
    case GetCredit => IsBuilding(j, false) && j.version.generation != MAX_WORD && !j.publicationSealed
    case FailBuild(code) => IsBuilding(j, true) && code in {ShuttingDown, BuildFailed, InternalError}
    case BeginPublish(n) => IsBuilding(j, true)
    case RejectCommit(code) =>
      j.stage == Applying(true) && j.slot.Some? && j.slot.value.phase == Publishing && code in {ShuttingDown, InternalError}
    case AcceptCommit =>
      j.stage == Applying(true) && j.slot.Some? && j.slot.value.phase == Publishing
      && j.slot.value.target.Some? && !j.publicationSealed
    case ObserveConverged =>
      j.stage.Applying? && IsCommitted(j) && j.converged >= j.slot.value.published.value.generation
    case LoseReclaimer => j.stage.Applying? && IsCommitted(j)
    case CompleteSlot => j.stage.Decided? && j.slot.Some?
    case ClearSlot => j.stage == Settled
    case Converge(g) => j.converged <= g <= j.version.generation
    case SealPublication => true
    case SealQueue => j.publicationSealed
    case RequestDetach => j.isSealed
    case CancelOne(k) => k < |j.cancelling|
    case LeaveIdle => j.stage == Waiting
    case FinishRun => j.stage == Leaving && j.isSealed
    case TakeBySuccessor =>
      && j.slot.Some? && (!j.runnerActive || Lingers(j))
      && (IsCommitted(Reconcile(j)) ==> j.converged >= Reconcile(j).slot.value.published.value.generation)
    case SettleOne(k) => k < |j.settling|
  }

  /** The publisher reached a verdict; an uncommitted credit is back. */
  function Decide(j: Journal, outcome: Outcome): Journal {
    j.(stage := Decided(outcome))
  }

  function Apply(j: Journal, a: Action): Journal
    requires Enabled(j, a)
  {
    match a
    case Submit(bytes) => Accept(j, bytes)
    case StartRunner => j.(runnerActive := true, stage := Waiting)
    case Take => TakeFront(j)
    case Exhausted => Decide(j, Failed(GenerationExhausted))
    case StopBeforeCredit => Decide(j, Failed(ShuttingDown))
    case GetCredit => j.(stage := Applying(true))
    case FailBuild(code) => Decide(j, Failed(code))
    case BeginPublish(n) =>
      j.(slot := Some(j.slot.value.(phase := Publishing, target := Some(Version(j.version.generation + 1, n)))))
    case RejectCommit(code) =>
      Decide(j.(slot := Some(j.slot.value.(phase := Building, target := None))), Failed(code))
    case AcceptCommit =>
      j.(version := j.slot.value.target.value,
         slot := Some(j.slot.value.(phase := Committed, published := j.slot.value.target)),
         stage := Applying(false),
         commits := j.commits[j.slot.value.id := j.slot.value.target.value])
    case ObserveConverged => Decide(j, Published(j.slot.value.published.value))
    case LoseReclaimer => j.(stage := Leaving)
    case CompleteSlot =>
      j.(outcomes := j.outcomes[j.slot.value.id := j.stage.outcome], stage := Settled)
    case ClearSlot => j.(slot := None, stage := Waiting)
    case Converge(g) => j.(converged := g)
    case SealPublication => j.(publicationSealed := true)
    case SealQueue => Swap(j)
    case RequestDetach => j.(detachRequested := true)
    case CancelOne(k) =>
      j.(outcomes := j.outcomes[j.cancelling[k].id := Failed(ShuttingDown)], cancelling := Without(j.cancelling, k))
    case LeaveIdle => j.(stage := Leaving)
    case FinishRun => Epilogue(j)
    case TakeBySuccessor =>
      var r := Reconcile(j);
      r.(settling := r.settling + [r.slot.value], slot := None)
    case SettleOne(k) =>
      j.(outcomes := j.outcomes[j.settling[k].id := SuccessorOutcome(j.settling[k])], settling := Without(j.settling, k))
  }

  // -------------------------------------------------------------- invariant

  /** How often a list holds the command `id`. */
  function Held(s: seq<Command>, id: nat): nat {
    if s == [] then 0 else One(s[0].id == id) + Held(s[1..], id)
  }

  function HeldInSlot(j: Journal, id: nat): nat {
    One(j.slot.Some? && j.stage != Settled && j.slot.value.id == id)
  }

  /** How many places still owe the submitter of `id` an answer. */
  function Owed(j: Journal, id: nat): nat {
    Held(j.pending, id) + HeldInSlot(j, id) + Held(j.cancelling, id) + Held(j.settling, id)
  }

  function Bytes(s: seq<Command>): nat {
    if s == [] then 0 else s[0].bytes + Bytes(s[1..])
  }

  /** Each accepted command is in exactly one place, or answered. */
  ghost predicate Partitioned(j: Journal) {
    forall id: nat :: Owed(j, id) + One(id in j.outcomes) == One(id < j.accepted)
  }

  ghost predicate QueueOk(j: Journal) {
    && j.queuedBytes == Bytes(j.pending) <= j.queueLimit
    && |j.pending| <= MAXIMUM_PENDING
    && (j.isSealed ==> j.pending == [] && j.publicationSealed)
    && (j.detachRequested ==> j.isSealed)
    && (forall k :: 0 <= k < |j.pending| ==> j.pending[k].id !in j.commits)
    && (forall k :: 0 <= k < |j.cancelling| ==> j.cancelling[k].id !in j.commits)
  }

  ghost predicate CommandOk(j: Journal, c: Command) {
    && (c.phase == Committed <==> c.id in j.commits)
    && (c.phase == Committed ==>
          c.published == Some(j.commits[c.id]) && j.commits[c.id].generation <= j.version.generation)
    && (c.phase == Publishing ==> c.target.Some? && c.target.value.generation == j.version.generation + 1)
  }

  ghost predicate SlotOk(j: Journal) {
    && (j.stage.Stopped? <==> !j.runnerActive)
    && (j.slot.Some? ==> CommandOk(j, j.slot.value))
    && (j.stage == Waiting || j.stage.Stopped? ==> j.slot.Some? ==> j.isSealed)
    && (j.stage.Applying? || j.stage.Decided? || j.stage == Settled ==> j.slot.Some?)
    && (j.stage.Stopped? || j.stage == Waiting || j.stage.Leaving? ==> j.slot.Some? ==> j.slot.value.phase == Committed)
    && (j.stage.Applying? && j.stage.credit ==> j.slot.value.phase == Building || j.slot.value.phase == Publishing)
    && (j.stage == Applying(false) ==> j.slot.value.phase == Building || j.slot.value.phase == Committed)
    && (j.stage.Decided? ==>
          if j.slot.value.phase == Committed then
            && j.stage.outcome == Published(j.commits[j.slot.value.id])
            && j.commits[j.slot.value.id].generation <= j.converged
          else j.slot.value.phase == Building && j.stage.outcome.Failed?)
  }

  ghost predicate SettlingOk(j: Journal) {
    forall k :: 0 <= k < |j.settling| ==>
      && CommandOk(j, j.settling[k])
      && j.settling[k].phase == Committed
      && j.commits[j.settling[k].id].generation <= j.converged
  }

  /** A commit is answered with its own version after it converged; everything
      else is answered with an error. */
  ghost predicate AnswersOk(j: Journal) {
    forall id :: id in j.outcomes ==>
      if id in j.commits then
        j.outcomes[id] == Published(j.commits[id]) && j.commits[id].generation <= j.converged
      else j.outcomes[id].Failed?
  }

  ghost predicate CommitsOk(j: Journal, base: nat) {
    && (forall id :: id in j.commits ==> id < j.accepted)
    && j.version.generation == base + |j.commits|
    && j.converged <= j.version.generation
  }

  ghost predicate Consistent(j: Journal, base: nat) {
    QueueOk(j) && SlotOk(j) && SettlingOk(j) && AnswersOk(j) && CommitsOk(j, base)
  }

  ghost predicate Inv(j: Journal, base: nat) {
    Partitioned(j) && Consistent(j, base)
  }

  // ------------------------------------------------------------- inductivity

  lemma {:induction false} HeldAppend(a: seq<Command>, b: seq<Command>, id: nat)
    ensures Held(a + b, id) == Held(a, id) + Held(b, id)
  {
    if a == [] {
      assert a + b == b;
    } else {
      assert (a + b)[1..] == a[1..] + b;
      HeldAppend(a[1..], b, id);
    }
  }

  lemma HeldWithout(s: seq<Command>, k: nat, id: nat)
    requires k < |s|
    ensures Held(s, id) == Held(Without(s, k), id) + One(s[k].id == id)
  {
    var rest := [s[k]] + s[k + 1..];
    assert s == s[..k] + rest;
    HeldAppend(s[..k], rest, id);
    assert rest[1..] == s[k + 1..];
    HeldAppend(s[..k], s[k + 1..], id);
  }

  lemma {:induction false} HeldAt(s: seq<Command>, k: nat)
    requires k < |s|
    ensures Held(s, s[k].id) >= 1
  {
    if k > 0 {
      HeldAt(s[1..], k - 1);
    }
  }

  lemma {:induction false} BytesAppend(a: seq<Command>, b: seq<Command>)
    ensures Bytes(a + b) == Bytes(a) + Bytes(b)
  {
    if a == [] {
      assert a + b == b;
    } else {
      assert (a + b)[1..] == a[1..] + b;
      BytesAppend(a[1..], b);
    }
  }

  /** Moving a command between places answers nobody. */
  lemma Moved(j: Journal, t: Journal)
    requires Partitioned(j) && t.outcomes == j.outcomes && t.accepted == j.accepted
    requires forall id :: Owed(t, id) == Owed(j, id)
    ensures Partitioned(t)
  {
  }

  /** Answering takes the command out of the only place that held it; it had
      not been answered before. */
  lemma Answered(j: Journal, t: Journal, answered: nat, outcome: Outcome)
    requires Partitioned(j) && forall id :: Owed(j, id) == Owed(t, id) + One(id == answered)
    requires t.outcomes == j.outcomes[answered := outcome] && t.accepted == j.accepted
    ensures Partitioned(t) && answered !in j.outcomes && answered < j.accepted
  {
    assert Owed(j, answered) >= 1;
  }

  lemma AcceptOwed(j: Journal, t: Journal, bytes: nat)
    requires Partitioned(j) && t == Accept(j, bytes)
    ensures Partitioned(t)
  {
    forall id: nat ensures Owed(t, id) == Owed(j, id) + One(id == j.accepted) {
      HeldAppend(j.pending, [Command(j.accepted, bytes, Queued, None, None)], id);
    }
  }

  lemma AcceptConsistent(j: Journal, t: Journal, base: nat, bytes: nat)
    requires Consistent(j, base) && Rejection(j, bytes).None? && t == Accept(j, bytes)
    ensures Consistent(t, base)
  {
    BytesAppend(j.pending, [Command(j.accepted, bytes, Queued, None, None)]);
  }

  lemma TakeOwed(j: Journal, t: Journal)
    requires j.stage == Waiting && j.slot.None? && j.pending != [] && t == TakeFront(j)
    ensures forall id :: Owed(t, id) == Owed(j, id)
  {
  }

  lemma TakeConsistent(j: Journal, t: Journal, base: nat)
    requires Consistent(j, base) && j.stage == Waiting && j.pending != [] && t == TakeFront(j)
    ensures Consistent(t, base)
  {
  }

  lemma SwapOwed(j: Journal, t: Journal)
    requires t == Swap(j)
    ensures forall id :: Owed(t, id) == Owed(j, id)
  {
    forall id: nat ensures Owed(t, id) == Owed(j, id) {
      HeldAppend(j.cancelling, j.pending, id);
    }
  }

  lemma SwapConsistent(j: Journal, t: Journal, base: nat)
    requires Consistent(j, base) && j.publicationSealed && t == Swap(j)
    ensures Consistent(t, base)
  {
  }

  lemma CancelOwed(j: Journal, t: Journal, k: nat)
    requires k < |j.cancelling| && t == j.(outcomes := t.outcomes, cancelling := Without(j.cancelling, k))
    ensures forall id :: Owed(j, id) == Owed(t, id) + One(id == j.cancelling[k].id)
  {
    forall id: nat ensures Owed(j, id) == Owed(t, id) + One(id == j.cancelling[k].id) {
      HeldWithout(j.cancelling, k, id);
    }
  }

  lemma CancelConsistent(j: Journal, t: Journal, base: nat, k: nat)
    requires Consistent(j, base) && k < |j.cancelling|
    requires t == j.(outcomes := j.outcomes[j.cancelling[k].id := Failed(ShuttingDown)],
                     cancelling := Without(j.cancelling, k))
    ensures Consistent(t, base)
  {
  }

  lemma SettleOwed(j: Journal, t: Journal, k: nat)
    requires k < |j.settling| && t == j.(outcomes := t.outcomes, settling := Without(j.settling, k))
    ensures forall id :: Owed(j, id) == Owed(t, id) + One(id == j.settling[k].id)
  {
    forall id: nat ensures Owed(j, id) == Owed(t, id) + One(id == j.settling[k].id) {
      HeldWithout(j.settling, k, id);
    }
  }

  lemma SettleConsistent(j: Journal, t: Journal, base: nat, k: nat)
    requires Consistent(j, base) && k < |j.settling|
    requires t == j.(outcomes := j.outcomes[j.settling[k].id := SuccessorOutcome(j.settling[k])],
                     settling := Without(j.settling, k))
    ensures Consistent(t, base)
  {
  }

  lemma SuccessorOwed(j: Journal, t: Journal)
    requires j.slot.Some? && j.stage != Settled && t == j.(settling := j.settling + [j.slot.value], slot := None)
    ensures forall id :: Owed(t, id) == Owed(j, id)
  {
    forall id: nat ensures Owed(t, id) == Owed(j, id) {
      HeldAppend(j.settling, [j.slot.value], id);
    }
  }

  lemma SuccessorConsistent(j: Journal, t: Journal, base: nat)
    requires Consistent(j, base) && j.stage in {Stopped, Waiting, Leaving} && IsCommitted(j)
    requires j.converged >= j.slot.value.published.value.generation
    requires t == j.(settling := j.settling + [j.slot.value], slot := None)
    ensures Consistent(t, base)
  {
  }

  lemma CompleteKeeps(j: Journal, t: Journal, base: nat)
    requires Inv(j, base) && j.stage.Decided?
    requires t == j.(outcomes := j.outcomes[j.slot.value.id := j.stage.outcome], stage := Settled)
    ensures Inv(t, base)
  {
    Answered(j, t, j.slot.value.id, j.stage.outcome);
  }

  lemma CommitConsistent(j: Journal, t: Journal, base: nat)
    requires Consistent(j, base) && j.slot.Some? && j.slot.value.phase == Publishing
    requires j.stage == Applying(true)
    requires j.slot.value.id !in j.outcomes && j.slot.value.id < j.accepted
    requires forall k :: 0 <= k < |j.pending| ==> j.pending[k].id != j.slot.value.id
    requires forall k :: 0 <= k < |j.cancelling| ==> j.cancelling[k].id != j.slot.value.id
    requires forall k :: 0 <= k < |j.settling| ==> j.settling[k].id != j.slot.value.id
    requires t == j.(version := j.slot.value.target.value,
                     slot := Some(j.slot.value.(phase := Committed, published := j.slot.value.target)),
                     stage := Applying(false),
                     commits := j.commits[j.slot.value.id := j.slot.value.target.value])
    ensures Consistent(t, base)
  {
  }

  lemma SlotIsAlone(j: Journal)
    requires Partitioned(j) && j.slot.Some? && j.stage != Settled
    ensures j.slot.value.id !in j.outcomes && j.slot.value.id < j.accepted
    ensures forall k :: 0 <= k < |j.pending| ==> j.pending[k].id != j.slot.value.id
    ensures forall k :: 0 <= k < |j.cancelling| ==> j.cancelling[k].id != j.slot.value.id
    ensures forall k :: 0 <= k < |j.settling| ==> j.settling[k].id != j.slot.value.id
  {
    assert Owed(j, j.slot.value.id) <= 1;
    forall k | 0 <= k < |j.pending| ensures j.pending[k].id != j.slot.value.id {
      HeldAt(j.pending, k);
    }
    forall k | 0 <= k < |j.cancelling| ensures j.cancelling[k].id != j.slot.value.id {
      HeldAt(j.cancelling, k);
    }
    forall k | 0 <= k < |j.settling| ensures j.settling[k].id != j.slot.value.id {
      HeldAt(j.settling, k);
    }
  }

  predicate OfQueue(a: Action) {
    a.Submit? || a.Take? || a.SealQueue? || a.CancelOne? || a.SettleOne? || a.TakeBySuccessor?
  }

  lemma QueueStepKeepsInv(j: Journal, a: Action, t: Journal, base: nat)
    requires Inv(j, base) && OfQueue(a) && Enabled(j, a) && t == Apply(j, a)
    ensures Inv(t, base)
  {
    match a
    case Submit(bytes) =>
      AcceptOwed(j, t, bytes);
      AcceptConsistent(j, t, base, bytes);
    case Take =>
      TakeOwed(j, t);
      Moved(j, t);
      TakeConsistent(j, t, base);
    case SealQueue =>
      SwapOwed(j, t);
      Moved(j, t);
      SwapConsistent(j, t, base);
    case CancelOne(k) =>
      CancelOwed(j, t, k);
      Answered(j, t, j.cancelling[k].id, Failed(ShuttingDown));
      CancelConsistent(j, t, base, k);
    case SettleOne(k) =>
      SettleOwed(j, t, k);
      Answered(j, t, j.settling[k].id, SuccessorOutcome(j.settling[k]));
      SettleConsistent(j, t, base, k);
    case TakeBySuccessor =>
      SuccessorOwed(j, t);
      Moved(j, t);
      SuccessorConsistent(j, t, base);
  }

  /** Steps of the publisher thread on its own command. */
  predicate OfWriter(a: Action) {
    || a.Exhausted? || a.StopBeforeCredit? || a.GetCredit? || a.FailBuild? || a.BeginPublish?
    || a.RejectCommit? || a.ObserveConverged? || a.LoseReclaimer? || a.ClearSlot?
  }

  predicate SameHolder(j: Journal, t: Journal) {
    && ((t.slot.Some? && t.stage != Settled) <==> (j.slot.Some? && j.stage != Settled))
    && (j.slot.Some? && j.stage != Settled ==> t.slot.value.id == j.slot.value.id)
  }

  lemma OwedFrame(j: Journal, t: Journal)
    requires t.pending == j.pending && t.cancelling == j.cancelling && t.settling == j.settling
    requires SameHolder(j, t)
    ensures forall id :: Owed(t, id) == Owed(j, id)
  {
  }

  /** A step that touches the slot and the stage alone leaves the other parts in order. */
  lemma SlotStepConsistent(j: Journal, t: Journal, base: nat)
    requires Consistent(j, base) && SlotOk(t) && t == j.(slot := t.slot, stage := t.stage)
    ensures Consistent(t, base)
  {
  }

  lemma BuildingSlot(j: Journal, a: Action, t: Journal)
    requires SlotOk(j) && Enabled(j, a) && t == Apply(j, a)
    requires a.Exhausted? || a.StopBeforeCredit? || a.GetCredit? || a.FailBuild? || a.BeginPublish?
    ensures SlotOk(t) && SameHolder(j, t) && t == j.(slot := t.slot, stage := t.stage)
  {
  }

  lemma DecidingSlot(j: Journal, a: Action, t: Journal)
    requires SlotOk(j) && Enabled(j, a) && t == Apply(j, a)
    requires a.RejectCommit? || a.ObserveConverged? || a.LoseReclaimer? || a.ClearSlot?
    ensures SlotOk(t) && SameHolder(j, t) && t == j.(slot := t.slot, stage := t.stage)
  {
  }

  lemma WriterConsistent(j: Journal, a: Action, t: Journal, base: nat)
    requires Consistent(j, base) && OfWriter(a) && Enabled(j, a) && t == Apply(j, a)
    ensures Consistent(t, base) && SameHolder(j, t)
    ensures t == j.(slot := t.slot, stage := t.stage)
  {
    if a.RejectCommit? || a.ObserveConverged? || a.LoseReclaimer? || a.ClearSlot? {
      DecidingSlot(j, a, t);
    } else {
      BuildingSlot(j, a, t);
    }
    SlotStepConsistent(j, t, base);
  }

  lemma RunnerConsistent(j: Journal, a: Action, t: Journal, base: nat)
    requires Consistent(j, base) && Enabled(j, a) && t == Apply(j, a) && (a.StartRunner? || a.LeaveIdle?)
    ensures Consistent(t, base) && SameHolder(j, t) && t == j.(runnerActive := t.runnerActive, stage := t.stage)
  {
  }

  lemma SignalConsistent(j: Journal, a: Action, t: Journal, base: nat)
    requires Consistent(j, base) && Enabled(j, a) && t == Apply(j, a) && (a.Converge? || a.RequestDetach? || a.SealPublication?)
    ensures Consistent(t, base) && SameHolder(j, t)
    ensures t == j.(converged := t.converged, detachRequested := t.detachRequested, publicationSealed := t.publicationSealed)
  {
  }

  lemma LifecycleConsistent(j: Journal, a: Action, t: Journal, base: nat)
    requires Consistent(j, base) && Enabled(j, a) && t == Apply(j, a)
    requires a.StartRunner? || a.Converge? || a.RequestDetach? || a.LeaveIdle? || a.SealPublication?
    ensures Consistent(t, base) && SameHolder(j, t)
    ensures t == j.(runnerActive := t.runnerActive, stage := t.stage, converged := t.converged,
                    detachRequested := t.detachRequested, publicationSealed := t.publicationSealed)
  {
    if a.StartRunner? || a.LeaveIdle? {
      RunnerConsistent(j, a, t, base);
    } else {
      SignalConsistent(j, a, t, base);
    }
  }

  /** The epilogue finds no command that is neither committed nor answered. */
  lemma EpilogueConsistent(j: Journal, t: Journal, base: nat)
    requires Consistent(j, base) && j.stage == Leaving && j.isSealed && t == Epilogue(j)
    ensures Consistent(t, base) && SameHolder(j, t)
    ensures t == j.(runnerActive := false, stage := Stopped) && (j.slot.None? || j.slot.value.phase == Committed)
  {
  }

  lemma WriterStepKeepsInv(j: Journal, a: Action, t: Journal, base: nat)
    requires Inv(j, base) && !OfQueue(a) && Enabled(j, a) && t == Apply(j, a)
    ensures Inv(t, base)
  {
    if a.AcceptCommit? {
      SlotIsAlone(j);
      CommitConsistent(j, t, base);
      OwedFrame(j, t);
      Moved(j, t);
    } else if a.CompleteSlot? {
      CompleteKeeps(j, t, base);
    } else {
      if OfWriter(a) {
        WriterConsistent(j, a, t, base);
      } else if a.FinishRun? {
        EpilogueConsistent(j, t, base);
      } else {
        LifecycleConsistent(j, a, t, base);
      }
      OwedFrame(j, t);
      Moved(j, t);
    }
  }

  ghost predicate Moves(j: Journal, a: Action, t: Journal) {
    Enabled(j, a) && t == Apply(j, a)
  }

  lemma StepKeepsInv(j: Journal, a: Action, t: Journal, base: nat)
    requires Inv(j, base) && Moves(j, a, t)
    ensures Inv(t, base)
  {
    if OfQueue(a) {
      QueueStepKeepsInv(j, a, t, base);
    } else {
      WriterStepKeepsInv(j, a, t, base);
    }
  }

  // ------------------------------------------------------------- whole runs

  ghost predicate Initial(j: Journal) {
    && j.pending == [] && j.slot.None? && j.queuedBytes == 0 && !j.isSealed && !j.detachRequested
    && !j.runnerActive && j.stage == Stopped && j.cancelling == [] && j.settling == []
    && j.version.generation >= 1 && j.converged == 0 && j.accepted == 0
    && j.outcomes == map[] && j.commits == map[]
  }

  ghost predicate IsRun(states: seq<Journal>, actions: seq<Action>) {
    && |states| == |actions| + 1
    && Initial(states[0])
    && forall k {:trigger actions[k]} :: 0 <= k < |actions| ==> Moves(states[k], actions[k], states[k + 1])
  }

  lemma InitialInv(j: Journal)
    requires Initial(j)
    ensures Inv(j, j.version.generation)
  {
  }

  lemma {:induction false} InvAlways(states: seq<Journal>, actions: seq<Action>, k: nat)
    requires IsRun(states, actions) && k < |states|
    ensures Inv(states[k], states[0].version.generation)
  {
    var base := states[0].version.generation;
    if k == 0 {
      InitialInv(states[0]);
    } else {
      InvAlways(states, actions, k - 1);
      StepKeepsInv(states[k - 1], actions[k - 1], states[k], base);
    }
  }

  /** Every accepted update is in exactly one place or answered, at all times. */
  lemma ExactlyOnePlace(states: seq<Journal>, actions: seq<Action>, k: nat, id: nat)
    requires IsRun(states, actions) && k < |states|
    ensures var j := states[k];
            && Owed(j, id) + One(id in j.outcomes) == One(id < j.accepted)
            && (id in j.outcomes ==> id < j.accepted)
  {
    InvAlways(states, actions, k);
  }

  lemma OtherAnswersStay(j: Journal, t: Journal, answered: nat, outcome: Outcome, id: nat)
    requires Partitioned(j) && id in j.outcomes
    requires forall other :: Owed(j, other) == Owed(t, other) + One(other == answered)
    requires t.outcomes == j.outcomes[answered := outcome] && t.accepted == j.accepted
    ensures id in t.outcomes && t.outcomes[id] == j.outcomes[id]
  {
    Answered(j, t, answered, outcome);
  }

  lemma MovesAnswerNobody(j: Journal, a: Action, t: Journal)
    requires Enabled(j, a) && t == Apply(j, a) && (a.Submit? || a.Take? || a.SealQueue? || a.TakeBySuccessor?)
    ensures t.outcomes == j.outcomes
  {
  }

  lemma QueueAnswersStay(j: Journal, a: Action, t: Journal, id: nat)
    requires Partitioned(j) && Enabled(j, a) && t == Apply(j, a) && id in j.outcomes && OfQueue(a)
    ensures id in t.outcomes && t.outcomes[id] == j.outcomes[id]
  {
    if a.CancelOne? {
      CancelOwed(j, t, a.index);
      OtherAnswersStay(j, t, j.cancelling[a.index].id, Failed(ShuttingDown), id);
    } else if a.SettleOne? {
      SettleOwed(j, t, a.index);
      OtherAnswersStay(j, t, j.settling[a.index].id, SuccessorOutcome(j.settling[a.index]), id);
    } else {
      MovesAnswerNobody(j, a, t);
    }
  }

  lemma WriterAnswersStay(j: Journal, a: Action, t: Journal, base: nat, id: nat)
    requires Inv(j, base) && Enabled(j, a) && t == Apply(j, a) && id in j.outcomes && !OfQueue(a)
    ensures id in t.outcomes && t.outcomes[id] == j.outcomes[id]
  {
    if a.CompleteSlot? {
      SlotIsAlone(j);
    } else if OfWriter(a) {
      WriterConsistent(j, a, t, base);
    } else if a.FinishRun? {
      EpilogueConsistent(j, t, base);
    } else if !a.AcceptCommit? {
      LifecycleConsistent(j, a, t, base);
    }
  }

  lemma AnswerStays(states: seq<Journal>, actions: seq<Action>, k: nat, id: nat)
    requires IsRun(states, actions) && k < |actions| && id in states[k].outcomes
    ensures id in states[k + 1].outcomes && states[k + 1].outcomes[id] == states[k].outcomes[id]
  {
    InvAlways(states, actions, k);
    var base := states[0].version.generation;
    if OfQueue(actions[k]) {
      QueueAnswersStay(states[k], actions[k], states[k + 1], id);
    } else {
      WriterAnswersStay(states[k], actions[k], states[k + 1], base, id);
    }
  }

  /** A promise is set once: an answer never changes afterwards. */
  lemma {:induction false} AnsweredOnce(states: seq<Journal>, actions: seq<Action>, k: nat, l: nat, id: nat)
    requires IsRun(states, actions) && k <= l < |states| && id in states[k].outcomes
    ensures id in states[l].outcomes && states[l].outcomes[id] == states[k].outcomes[id]
  {
    if k < l {
      AnsweredOnce(states, actions, k, l - 1, id);
      AnswerStays(states, actions, l - 1, id);
    }
  }

  /** A committed update is only ever answered with the version it published,
      and only after that version converged; any other answer is an error of an
      update that never touched the generation, which counts the commits. */
  lemma CommittedAnswers(states: seq<Journal>, actions: seq<Action>, k: nat, id: nat)
    requires IsRun(states, actions) && k < |states| && id in states[k].outcomes
    ensures var j := states[k];
            && (j.outcomes[id].Published? <==> id in j.commits)
            && (id in j.commits ==> j.outcomes[id].version == j.commits[id] && j.commits[id].generation <= j.converged)
            && j.version.generation == states[0].version.generation + |j.commits|
  {
    InvAlways(states, actions, k);
  }

  /** The byte account of the queue is exact and within its limit. */
  lemma QueueAccount(states: seq<Journal>, actions: seq<Action>, k: nat)
    requires IsRun(states, actions) && k < |states|
    ensures states[k].queuedBytes == Bytes(states[k].pending) <= states[k].queueLimit
    ensures |states[k].pending| <= MAXIMUM_PENDING
  {
    InvAlways(states, actions, k);
  }

  // ----------------------------------------------------------------- object

  /** The controller itself. `outcomes` are the promises that were set. */
  class FilterUpdateController {
    const queueLimit: nat
    var pending: seq<Command>
    var slot: Option<Command>
    var queuedBytes: nat
    var isSealed: bool
    var detachRequested: bool
    var runnerActive: bool
    var stage: Stage
    var cancelling: seq<Command>
    var settling: seq<Command>
    var version: Version
    var publicationSealed: bool
    var converged: nat
    var accepted: nat
    var outcomes: map<nat, Outcome>
    ghost var commits: map<nat, Version>

    ghost function View(): Journal
      reads this
    {
      Journal(queueLimit, pending, slot, queuedBytes, isSealed, detachRequested, runnerActive, stage,
              cancelling, settling, version, publicationSealed, converged, accepted, outcomes, commits)
    }

    constructor (initial: Version, limit: nat)
      requires initial.generation != 0
      ensures Initial(View()) && queueLimit == limit && version == initial
    {
      queueLimit := limit;
      pending := [];
      slot := None;
      queuedBytes := 0;
      isSealed := false;
      detachRequested := false;
      runnerActive := false;
      stage := Stopped;
      cancelling := [];
      settling := [];
      version := initial;
      publicationSealed := false;
      converged := 0;
      accepted := 0;
      outcomes := map[];
      commits := map[];
    }

    method SubmitReplace(bytes: nat) returns (rejection: Option<ErrorCode>)
      modifies this
      ensures rejection == old(Rejection(View(), bytes))
      ensures View() == if rejection.None? then Accept(old(View()), bytes) else old(View())
      ensures rejection.None? <==> !isSealed && |old(pending)| < 64 && (bytes == 0 || old(queuedBytes) + bytes <= queueLimit)
      ensures rejection == Some(ShuttingDown) <==> isSealed
      ensures rejection == Some(QueueFull) <==> !isSealed && |old(pending)| >= 64
      ensures rejection.None? ==> pending == old(pending) + [Command(old(accepted), bytes, Queued, None, None)]
    {
      if isSealed {
        return Some(ShuttingDown);
      } else if |pending| >= MAXIMUM_PENDING {
        return Some(QueueFull);
      } else if bytes > queueLimit - Min(queuedBytes, queueLimit) {
        return Some(QueueBytesLimitExceeded);
      }
      pending := pending + [Command(accepted, bytes, Queued, None, None)];
      queuedBytes := queuedBytes + bytes;
      accepted := accepted + 1;
      rejection := None;
    }

    method TakeNext()
      requires stage == Waiting && pending != []
      modifies this
      ensures View() == Apply(old(View()), Take)
      ensures pending == old(pending)[1..] && slot == Some(old(pending)[0].(phase := Building))
    {
      var command := pending[0];
      pending := pending[1..];
      queuedBytes := queuedBytes - Min(queuedBytes, command.bytes);
      slot := Some(command.(phase := Building));
      stage := Applying(false);
    }

    /** Sealing swaps the queue out under the mutex and answers it outside. */
    method SealAndCancel()
      modifies this
      ensures isSealed && publicationSealed
      ensures old(isSealed) ==> View() == old(View()).(publicationSealed := true)
      ensures !old(isSealed) ==>
                && pending == [] && queuedBytes == 0 && cancelling == old(cancelling)
                && View() == old(View()).(pending := [], queuedBytes := 0, isSealed := true,
                                          publicationSealed := true, outcomes := outcomes)
                && outcomes == CancelledAll(old(outcomes), old(pending))
    {
      publicationSealed := true;
      if !isSealed {
        var cancelled := pending;
        isSealed := true;
        pending := [];
        queuedBytes := 0;
        for k := 0 to |cancelled|
          invariant View() == old(View()).(pending := [], queuedBytes := 0, isSealed := true,
                                           publicationSealed := true, outcomes := outcomes)
          invariant outcomes == CancelledAll(old(outcomes), cancelled[..k])
        {
          outcomes := outcomes[cancelled[k].id := Failed(ShuttingDown)];
          assert cancelled[..k + 1][..k] == cancelled[..k];
        }
        assert cancelled[..|cancelled|] == cancelled;
      }
    }

    method ReconcileSlot()
      modifies this
      ensures View() == Reconcile(old(View()))
      ensures var s := old(slot);
              if s.Some? && s.value.phase == Publishing && s.value.target.Some? then
                && View() == old(View()).(slot := slot) && slot.Some? && slot.value.id == s.value.id
                && (slot.value.phase == Committed <==> version == s.value.target.value)
                && (if version == s.value.target.value then slot.value.published == Some(version)
                    else slot.value.phase == Building && slot.value.target.None?)
              else View() == old(View())
    {
      if slot.Some? && slot.value.phase == Publishing && slot.value.target.Some? {
        if version == slot.value.target.value {
          slot := Some(slot.value.(phase := Committed, published := slot.value.target));
        } else {
          slot := Some(slot.value.(phase := Building, target := None));
        }
      }
    }

    method FinishRunner()
      requires stage == Leaving && isSealed
      modifies this
      ensures View() == Epilogue(old(View()))
      ensures !runnerActive && stage == Stopped && (slot.Some? ==> slot.value.phase == Committed)
      ensures old(slot).Some? && slot.None? ==> outcomes == old(outcomes)[old(slot).value.id := Failed(InternalError)]
      ensures old(slot).None? || slot.Some? ==> outcomes == old(outcomes)
    {
      ReconcileSlot();
      AnswerUncommitted();
      runnerActive := false;
      stage := Stopped;
    }

    method AnswerUncommitted()
      modifies this
      ensures View() == if old(slot).Some? && old(slot).value.phase != Committed
                        then old(View()).(outcomes := old(outcomes)[old(slot).value.id := Failed(InternalError)], slot := None)
                        else old(View())
    {
      if slot.Some? && slot.value.phase != Committed {
        outcomes := outcomes[slot.value.id := Failed(InternalError)];
        slot := None;
      }
    }
  }

  /** The promises after a swapped-out queue was answered front to back. */
  function CancelledAll(outcomes: map<nat, Outcome>, cancelled: seq<Command>): map<nat, Outcome> {
    if cancelled == [] then outcomes
    else
      var n := |cancelled| - 1;
      CancelledAll(outcomes, cancelled[..n])[cancelled[n].id := Failed(ShuttingDown)]
  }

  /** Everyone in the queue is told that the service shuts down, and nobody else is told anything. */
  lemma {:induction false} CancelledExactly(outcomes: map<nat, Outcome>, cancelled: seq<Command>, id: nat)
    ensures var after := CancelledAll(outcomes, cancelled);
            if exists k :: 0 <= k < |cancelled| && cancelled[k].id == id then id in after && after[id] == Failed(ShuttingDown)
            else (id in after <==> id in outcomes) && (id in after ==> after[id] == outcomes[id])
  {
    if cancelled != [] {
      CancelledExactly(outcomes, cancelled[..|cancelled| - 1], id);
    }
  }
}
