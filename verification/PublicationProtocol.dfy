/** All interleavings of the publisher A, the reclaimer B, the supervisor C, the
    workers and the teardown thread.

    A step is the smallest piece of code another thread can observe. Sections
    under the publication mutex are split between the stores that B reads
    without that mutex; B's evaluation of a cohort is split into its single
    atomic loads. A non-free `section` is a held publication mutex, a non-idle
    `scan` a held retirement mutex. `locals` holds the owner of every live
    worker instance. */
module PublicationProtocol {
  import opened Basics
  import opened FilterPublication

  datatype Section = Free | Registering(worker: nat, instance: nat) | Acking(member: Member)

  datatype Scanner = Reclaimer | Teardown

  /** Progress of the loads for one cohort member. */
  datatype Stage =
    | Fresh
    | NotQuiesced
    | SawInstance(first: nat)
    | SawObserved(first: nat, observed: nat)

  datatype Scan = Idle | Scanning(scanner: Scanner, terminal: bool, index: nat, stage: Stage)

  datatype State = State(
    p: Shared,
    locals: map<Member, Snapshot>,
    section: Section,
    scan: Scan,
    hand: Option<Snapshot>,
    credit: bool,
    saturated: bool,
    destroyed: set<Snapshot>)

  datatype Action =
    | ResetEpoch(worker: nat, instance: nat)
    | PublishEpoch
    | SwapLocal(member: Member)
    | AckLocal
    | MarkRegistered(member: Member)
    | DropLocal(member: Member)
    | QuiesceInstance(member: Member)
    | AcquireCredit
    | ReleaseCredit
    | CommitSnapshot(candidate: Snapshot)
    | Seal
    | DetachActive
    | StartReclaimer
    | BeginScan
    | BeginTeardown
    | LoadQuiesced
    | LoadFirst
    | LoadObserved
    | LoadSecond
    | BeginDestroy
    | ExtraOwnerFatal
    | DestroyHand
    | EndDestroy(terminal: bool)
    | ExitReclaimer
    | NextTeardown
    | FinishTeardown
    | RefuseTeardown

  // ------------------------------------------------------------ definitions

  function Scanned(s: State): Record
    requires s.scan.Scanning?
  {
    if s.scan.terminal then s.p.terminal else s.p.retired
  }

  /** The member the scanner is reading. */
  predicate AtMember(s: State) {
    && s.scan.Scanning?
    && s.scan.index < |Scanned(s).cohort|
    && Scanned(s).cohort[s.scan.index].worker < |s.p.epochs|
  }

  predicate ScanComplete(s: State) {
    s.scan.Scanning? && s.scan.stage == Fresh && s.scan.index == |Scanned(s).cohort|
  }

  /** The number of owners of a shared snapshot. */
  function UseCount(s: State, x: Snapshot): nat {
    One(s.p.active == Some(x)) + One(s.p.retired.owner == Some(x)) + One(s.p.terminal.owner == Some(x))
    + One(s.hand == Some(x)) + |set m | m in s.locals && s.locals[m] == x|
  }

  predicate SoleOwner(s: State, r: Record) {
    r.owner.Some? ==> UseCount(s, r.owner.value) == 1
  }

  predicate Unlocked(s: State) {
    s.scan == Idle && s.section == Free
  }

  /** When a step can happen. The conditions that are not tests of the code are
      obligations its callers discharge: instance ids grow, a local owner is
      released before its instance quiesces, publication is sealed before the
      terminal detach, and only the holder of the credit gives it back. */
  predicate Enabled(s: State, a: Action)
    requires |s.p.registry| == |s.p.epochs|
  {
    match a
    case ResetEpoch(w, i) => s.section == Free && CanRegister(s.p, w, i) && s.p.epochs[w].published < i
    case PublishEpoch => s.section.Registering? && s.section.worker < |s.p.epochs| && s.p.active.Some?
    case SwapLocal(m) =>
      && s.section == Free && m in s.locals && m.worker < |s.p.epochs|
      && CanRefresh(s.p, m.worker, m.instance, Some(s.locals[m]))
    case AckLocal => s.section.Acking? && s.section.member in s.locals && s.section.member.worker < |s.p.epochs|
    case MarkRegistered(m) => s.section == Free && CanMark(s.p, m.worker, m.instance)
    case DropLocal(m) => m in s.locals && s.section != Acking(m)
    case QuiesceInstance(m) => s.section == Free && m !in s.locals
    case AcquireCredit => s.scan == Idle && !s.p.creditHeld && !s.p.isSealed
    case ReleaseCredit => s.scan == Idle && s.credit
    case CommitSnapshot(c) => Unlocked(s) && CommitFailure(s.p, Some(c)).None?
    case Seal => Unlocked(s)
    case DetachActive => Unlocked(s) && s.p.isSealed
    case StartReclaimer => s.scan == Idle && !s.p.reclaimerActive
    case BeginScan =>
      && s.scan == Idle && s.p.reclaimerActive && s.hand.None?
      && NextRecord(s.p).pending && !NextRecord(s.p).destroying
    case BeginTeardown =>
      s.scan == Idle && !s.p.reclaimerActive && s.p.isSealed && NextRecord(s.p).pending
    case LoadQuiesced => AtMember(s) && s.scan.stage == Fresh
    case LoadFirst => AtMember(s) && s.scan.stage == NotQuiesced
    case LoadObserved => AtMember(s) && s.scan.stage.SawInstance?
    case LoadSecond => AtMember(s) && s.scan.stage.SawObserved?
    case BeginDestroy => ScanComplete(s) && s.scan.scanner == Reclaimer && SoleOwner(s, Scanned(s))
    case ExtraOwnerFatal => ScanComplete(s) && s.scan.scanner == Reclaimer && !SoleOwner(s, Scanned(s))
    case DestroyHand => s.hand.Some?
    case EndDestroy(t) =>
      s.scan == Idle && s.hand.None? && (if t then s.p.terminal.destroying else s.p.retired.destroying)
    case ExitReclaimer =>
      && s.scan == Idle && s.p.reclaimerActive && s.hand.None?
      && !s.p.retired.destroying && !s.p.terminal.destroying
    case NextTeardown =>
      ScanComplete(s) && s.scan.scanner == Teardown && !s.scan.terminal && s.p.terminal.pending
    case FinishTeardown =>
      && ScanComplete(s) && s.scan.scanner == Teardown && (s.scan.terminal || !s.p.terminal.pending)
      && SoleOwner(s, s.p.retired) && SoleOwner(s, s.p.terminal)
    case RefuseTeardown =>
      && ScanComplete(s) && s.scan.scanner == Teardown && (s.scan.terminal || !s.p.terminal.pending)
      && !(SoleOwner(s, s.p.retired) && SoleOwner(s, s.p.terminal))
  }

  function Owners(o: Option<Snapshot>): set<Snapshot> {
    if o.Some? then {o.value} else {}
  }

  /** The verdict on one member: on to the next one, or drop the mutex and wait. */
  function Verdict(s: State, complete: bool): State
    requires s.scan.Scanning?
  {
    if complete then s.(scan := s.scan.(index := s.scan.index + 1, stage := Fresh)) else s.(scan := Idle)
  }

  function Load(s: State): State
    requires AtMember(s)
  {
    var m := Scanned(s).cohort[s.scan.index];
    var e := s.p.epochs[m.worker];
    match s.scan.stage
    case Fresh =>
      if e.quiesced >= m.instance then Verdict(s, true)
      else if s.scan.terminal then Verdict(s, false)
      else s.(scan := s.scan.(stage := NotQuiesced))
    case NotQuiesced => s.(scan := s.scan.(stage := SawInstance(e.published)))
    case SawInstance(first) => s.(scan := s.scan.(stage := SawObserved(first, e.observed)))
    case SawObserved(first, observed) =>
      Verdict(s, first == m.instance && e.published == m.instance
                 && observed >= Scanned(s).version.generation)
  }

  function Apply(s: State, a: Action): State
    requires |s.p.registry| == |s.p.epochs| && Enabled(s, a)
  {
    match a
    case ResetEpoch(w, i) => s.(p := RegisterReset(s.p, w), section := Registering(w, i))
    case PublishEpoch =>
      s.(p := RegisterPublish(s.p, s.section.worker, s.section.instance),
         locals := s.locals[Member(s.section.worker, s.section.instance) := s.p.active.value],
         section := Free)
    case SwapLocal(m) => s.(locals := s.locals[m := s.p.active.value], section := Acking(m))
    case AckLocal =>
      s.(p := Acknowledge(s.p, s.section.member.worker, s.locals[s.section.member]), section := Free)
    case MarkRegistered(m) => s.(p := Mark(s.p, m.worker))
    case DropLocal(m) => s.(locals := s.locals - {m})
    case QuiesceInstance(m) => s.(p := Quiesce(s.p, m.worker, m.instance))
    case AcquireCredit => s.(p := s.p.(creditHeld := true), credit := true)
    case ReleaseCredit => s.(p := s.p.(creditHeld := s.p.creditHeld && s.p.retired.pending), credit := false)
    case CommitSnapshot(c) => s.(p := Commit(s.p, c), credit := false)
    case Seal => s.(p := s.p.(isSealed := true))
    case DetachActive =>
      s.(p := Detach(s.p),
         saturated := s.saturated ||
                      (s.p.active.Some? && s.p.retiredBytes + s.p.active.value.ruleBytes > MAX_WORD))
    case StartReclaimer => s.(p := s.p.(reclaimerStarted := true, reclaimerActive := true))
    case BeginScan => s.(scan := Scanning(Reclaimer, !s.p.retired.pending, 0, Fresh))
    case BeginTeardown => s.(scan := Scanning(Teardown, !s.p.retired.pending, 0, Fresh))
    case LoadQuiesced => Load(s)
    case LoadFirst => Load(s)
    case LoadObserved => Load(s)
    case LoadSecond => Load(s)
    case BeginDestroy =>
      s.(p := BeginReclaim(s.p, s.scan.terminal), hand := Scanned(s).owner, scan := Idle)
    case ExtraOwnerFatal => s.(p := s.p.(reclaimerActive := false), scan := Idle)
    case DestroyHand => s.(hand := None, destroyed := s.destroyed + {s.hand.value})
    case EndDestroy(t) => s.(p := EndReclaim(s.p, t))
    case ExitReclaimer => s.(p := s.p.(reclaimerActive := false))
    case NextTeardown => s.(scan := Scanning(Teardown, true, 0, Fresh))
    case FinishTeardown =>
      s.(p := ReclaimConverged(s.p), scan := Idle,
         destroyed := s.destroyed + Owners(s.p.retired.owner) + Owners(s.p.terminal.owner))
    case RefuseTeardown => s.(scan := Idle)
  }

  // -------------------------------------------------------------- invariant

  ghost predicate EpochsOk(s: State) {
    && |s.p.registry| == |s.p.epochs|
    && forall w :: 0 <= w < |s.p.epochs| ==>
         && s.p.epochs[w].quiesced <= s.p.epochs[w].published
         && (s.p.registry[w] <==> s.p.epochs[w].quiesced < s.p.epochs[w].published)
         && (s.p.registry[w] ==> s.p.epochs[w].registration != Unregistered)
  }

  ghost predicate SectionOk(s: State)
    requires EpochsOk(s)
  {
    match s.section
    case Free => true
    case Registering(w, i) =>
      && w < |s.p.epochs| && !s.p.registry[w] && s.p.active.Some?
      && s.p.epochs[w].published < i && s.p.epochs[w].observed == 0 && s.p.epochs[w].registration == Starting
    case Acking(m) => m in s.locals && s.p.active == Some(s.locals[m])
  }

  /** A live instance is the visible instance of its worker and acknowledged
      nothing newer than what it holds. */
  ghost predicate LocalsOk(s: State)
    requires EpochsOk(s)
  {
    forall m :: m in s.locals ==>
      && m.worker < |s.p.epochs| && s.p.registry[m.worker]
      && s.p.epochs[m.worker].published == m.instance
      && s.p.epochs[m.worker].observed <= s.locals[m].generation
  }

  /** m still holds the retired snapshot, and the record knows it has to wait. */
  ghost predicate Behind(s: State, m: Member)
    requires m in s.locals
  {
    && s.p.retired.pending && !s.p.retired.destroying
    && s.p.retired.owner == Some(s.locals[m])
    && m in s.p.retired.cohort
  }

  ghost predicate InTerminal(s: State, m: Member)
    requires m in s.locals
  {
    && s.p.terminal.pending && !s.p.terminal.destroying
    && s.p.terminal.owner == Some(s.locals[m])
  }

  ghost predicate OwnersOk(s: State) {
    && (forall m :: m in s.locals ==> s.p.active == Some(s.locals[m]) || InTerminal(s, m) || Behind(s, m))
    && (s.p.terminal.pending ==> forall m :: m in s.locals ==> m in s.p.terminal.cohort)
  }

  ghost predicate RetiredOk(p: Shared) {
    && !p.retired.terminal
    && (!p.retired.pending ==> p.retired.owner.None? && !p.retired.destroying)
    && (p.retired.pending ==>
          && p.version.generation >= 2
          && p.retired.version == p.version
          && p.lastReclaimed < p.version.generation
          && (p.retired.destroying ==> p.retired.owner.None? && p.lastConverged == p.version.generation)
          && (!p.retired.destroying ==>
                && p.lastConverged < p.version.generation
                && p.retired.owner.Some?
                && p.retired.owner.value.generation + 1 == p.version.generation
                && p.retired.owner.value.ruleBytes == p.retired.retiredBytes))
  }

  ghost predicate TerminalOk(p: Shared) {
    && (!p.terminal.pending ==> p.terminal.owner.None? && !p.terminal.destroying)
    && (p.terminal.pending ==>
          && p.isSealed && p.active.None? && p.terminal.terminal
          && (p.terminal.destroying ==> p.terminal.owner.None? && !p.retired.pending)
          && (!p.terminal.destroying ==>
                && p.terminal.owner.Some?
                && p.terminal.owner.value.generation == p.version.generation
                && p.terminal.owner.value.ruleBytes == p.terminal.retiredBytes))
  }

  ghost predicate ActiveOk(p: Shared) {
    && p.version.generation >= 1
    && (p.active.None? ==> p.isSealed)
    && (p.active.Some? ==>
          && p.active.value.generation == p.version.generation
          && p.active.value.ruleCount == p.version.ruleCount
          && p.active.value.ruleBytes == p.ruleBytes)
    && p.lastReclaimed <= p.lastConverged <= p.version.generation
  }

  /** Cohort members existed when the record was made. */
  ghost predicate CohortsOk(p: Shared) {
    && (forall k :: 0 <= k < |p.retired.cohort| ==>
          var m := p.retired.cohort[k];
          m.worker < |p.epochs| && m.instance <= p.epochs[m.worker].published)
    && (forall k :: 0 <= k < |p.terminal.cohort| ==>
          var m := p.terminal.cohort[k];
          m.worker < |p.epochs| && m.instance <= p.epochs[m.worker].published)
  }

  ghost predicate CreditOk(s: State) {
    && (s.p.creditHeld <==> s.credit || s.p.retired.pending)
    && !(s.credit && s.p.retired.pending)
  }

  function PendingBytes(r: Record): nat {
    if r.pending then r.retiredBytes else 0
  }

  ghost predicate BytesOk(s: State) {
    !s.saturated ==> s.p.retiredBytes == PendingBytes(s.p.retired) + PendingBytes(s.p.terminal)
  }

  ghost predicate HandOk(s: State) {
    s.hand.Some? ==>
      || (&& s.p.retired.destroying
          && s.hand.value.generation + 1 == s.p.version.generation)
      || (s.p.terminal.destroying && !s.p.retired.pending && s.hand.value.generation == s.p.version.generation)
  }

  ghost predicate DestroyedOk(s: State) {
    forall d :: d in s.destroyed ==>
      && d.generation <= s.p.version.generation
      && s.p.active != Some(d) && s.p.retired.owner != Some(d) && s.p.terminal.owner != Some(d)
      && s.hand != Some(d)
  }

  /** m will never again be found holding the scanned owner. */
  ghost predicate Done(s: State, m: Member, terminal: bool) {
    if terminal then m !in s.locals
    else m in s.locals ==> s.locals[m].generation == s.p.version.generation
  }

  ghost predicate AllDone(s: State, r: Record, terminal: bool, n: nat)
    requires n <= |r.cohort|
  {
    forall k :: 0 <= k < n ==> Done(s, r.cohort[k], terminal)
  }

  ghost predicate ScanOk(s: State) {
    s.scan.Scanning? ==>
      var r := Scanned(s);
      && r.pending && !r.destroying
      && s.hand.None?
      && s.scan.index <= |r.cohort|
      && AllDone(s, r, s.scan.terminal, s.scan.index)
      && (s.scan.stage != Fresh ==> s.scan.index < |r.cohort| && !s.scan.terminal)
      && (s.scan.stage.SawObserved? && s.scan.stage.observed >= s.p.version.generation ==>
            Done(s, r.cohort[s.scan.index], false))
      && (s.scan.scanner == Reclaimer ==> s.p.reclaimerActive && (s.scan.terminal ==> !s.p.retired.pending))
      && (s.scan.scanner == Teardown ==>
            && !s.p.reclaimerActive && s.p.isSealed
            && (s.scan.terminal ==> AllDone(s, s.p.retired, false, |s.p.retired.cohort|)))
  }

  /** Everything that does not depend on the epochs, the locals or the scan. */
  ghost predicate Core(s: State) {
    && RetiredOk(s.p) && TerminalOk(s.p) && ActiveOk(s.p)
    && CreditOk(s) && BytesOk(s) && HandOk(s) && DestroyedOk(s)
    && (s.p.retired.destroying || s.p.terminal.destroying ==> s.p.reclaimerActive)
    && (!s.p.retired.pending ==> s.p.retired.cohort == [])
  }

  ghost predicate Participants(s: State) {
    EpochsOk(s) && SectionOk(s) && LocalsOk(s) && CohortsOk(s.p)
  }

  ghost predicate Inv(s: State) {
    Core(s) && Participants(s) && OwnersOk(s) && ScanOk(s)
  }

  // ------------------------------------------------------------- inductivity

  lemma {:induction false} CohortContains(p: Shared, n: nat, w: nat)
    requires |p.registry| == |p.epochs| && w < n <= |p.registry|
    requires p.registry[w] && p.epochs[w].published != 0 && p.epochs[w].registration != Unregistered
    ensures Member(w, p.epochs[w].published) in Cohort(p, n)
  {
    if w < n - 1 {
      CohortContains(p, n - 1, w);
    }
  }

  lemma {:induction false} CohortExisted(p: Shared, n: nat)
    requires |p.registry| == |p.epochs| && n <= |p.registry|
    ensures forall k :: 0 <= k < |Cohort(p, n)| ==>
              var m := Cohort(p, n)[k];
              m.worker < n && m.instance == p.epochs[m.worker].published
  {
    if n != 0 {
      CohortExisted(p, n - 1);
    }
  }

  lemma NeverAhead(s: State)
    requires Core(s) && OwnersOk(s)
    ensures forall m :: m in s.locals ==> s.locals[m].generation <= s.p.version.generation
  {
  }

  /** Steps that only change epochs leave records, owners and verdicts alone. */
  lemma EpochFrame(s: State, t: State)
    requires t == s.(p := s.p.(epochs := t.p.epochs, registry := t.p.registry), section := t.section)
    requires Core(s) && OwnersOk(s) && ScanOk(s)
    ensures Core(t) && OwnersOk(t) && ScanOk(t)
  {
  }

  lemma ScanFrame(s: State, t: State)
    requires t == s.(scan := t.scan)
    requires Core(s) && Participants(s) && OwnersOk(s)
    ensures Core(t) && Participants(t) && OwnersOk(t)
  {
  }

  lemma ResetParticipants(s: State, t: State, w: nat, i: nat)
    requires Participants(s) && s.section == Free && CanRegister(s.p, w, i) && s.p.epochs[w].published < i
    requires t == s.(p := RegisterReset(s.p, w), section := Registering(w, i))
    ensures Participants(t)
  {
  }

  lemma PublishParticipants(s: State, t: State)
    requires Participants(s) && s.section.Registering?
    requires t == s.(p := RegisterPublish(s.p, s.section.worker, s.section.instance),
                     locals := s.locals[Member(s.section.worker, s.section.instance) := s.p.active.value],
                     section := Free)
    ensures Participants(t)
  {
  }

  /** A new instance is in no cohort, so it disturbs no verdict. */
  lemma PublishKeeps(s: State, t: State)
    requires Inv(s) && s.section.Registering?
    requires t == s.(p := RegisterPublish(s.p, s.section.worker, s.section.instance),
                     locals := s.locals[Member(s.section.worker, s.section.instance) := s.p.active.value],
                     section := Free)
    ensures Inv(t)
  {
    PublishParticipants(s, t);
    var newcomer := Member(s.section.worker, s.section.instance);
    assert newcomer !in s.p.retired.cohort;
    assert newcomer !in s.p.terminal.cohort;
  }

  lemma SwapKeeps(s: State, t: State, m: Member)
    requires Inv(s) && s.section == Free && m in s.locals
    requires m.worker < |s.p.epochs| && CanRefresh(s.p, m.worker, m.instance, Some(s.locals[m]))
    requires t == s.(locals := s.locals[m := s.p.active.value], section := Acking(m))
    ensures Inv(t)
  {
  }

  lemma AckEpochs(s: State, t: State, m: Member)
    requires EpochsOk(s) && CohortsOk(s.p) && m in s.locals && m.worker < |s.p.epochs|
    requires t == s.(p := Acknowledge(s.p, m.worker, s.locals[m]), section := Free)
    ensures EpochsOk(t) && CohortsOk(t.p)
  {
  }

  /** The acknowledgement follows the swap, so it never exceeds what is held. */
  lemma AckParticipants(s: State, t: State, m: Member)
    requires EpochsOk(s) && LocalsOk(s) && CohortsOk(s.p) && m in s.locals && m.worker < |s.p.epochs|
    requires t == s.(p := Acknowledge(s.p, m.worker, s.locals[m]), section := Free)
    ensures Participants(t)
  {
    AckEpochs(s, t, m);
    forall n | n in t.locals
      ensures n.worker < |t.p.epochs| && t.p.registry[n.worker] && t.p.epochs[n.worker].published == n.instance
      ensures t.p.epochs[n.worker].observed <= t.locals[n].generation
    {
      if n.worker == m.worker {
        assert n == m;
      }
    }
  }

  lemma MarkParticipants(s: State, t: State, w: nat)
    requires Participants(s) && s.section == Free && w < |s.p.epochs|
    requires t == s.(p := Mark(s.p, w))
    ensures Participants(t)
  {
  }

  lemma DropKeeps(s: State, t: State, m: Member)
    requires Inv(s) && s.section != Acking(m)
    requires t == s.(locals := s.locals - {m})
    ensures Inv(t)
  {
    DropParticipants(s, t, m);
  }

  lemma DropParticipants(s: State, t: State, m: Member)
    requires Participants(s) && s.section != Acking(m) && t == s.(locals := s.locals - {m})
    ensures Participants(t)
  {
  }

  lemma QuiesceParticipants(s: State, t: State, m: Member)
    requires Participants(s) && s.section == Free && m !in s.locals
    requires t == s.(p := Quiesce(s.p, m.worker, m.instance))
    ensures Participants(t)
  {
  }

  lemma CreditKeeps(s: State, t: State)
    requires Inv(s) && s.scan == Idle
    requires || (!s.p.creditHeld && !s.p.isSealed && t == s.(p := s.p.(creditHeld := true), credit := true))
             || (s.credit && t == s.(p := s.p.(creditHeld := s.p.creditHeld && s.p.retired.pending), credit := false))
    ensures Inv(t)
  {
  }

  /** At a commit every live instance holds the snapshot that retires, and is
      in the cohort frozen with it. */
  lemma CommitKeeps(s: State, t: State, c: Snapshot)
    requires Inv(s) && Unlocked(s) && CommitFailure(s.p, Some(c)).None?
    requires t == s.(p := Commit(s.p, c), credit := false)
    ensures Inv(t)
  {
    var n := |s.p.registry|;
    forall m | m in s.locals ensures Behind(t, m) {
      CohortContains(s.p, n, m.worker);
    }
    CohortExisted(s.p, n);
  }

  lemma SealKeeps(s: State, t: State)
    requires Inv(s) && Unlocked(s) && t == s.(p := s.p.(isSealed := true))
    ensures Inv(t)
  {
  }

  ghost predicate Detaches(s: State, t: State)
    requires EpochsOk(s)
  {
    && Unlocked(s) && s.p.isSealed
    && t == s.(p := Detach(s.p),
               saturated := s.saturated ||
                            (s.p.active.Some? && s.p.retiredBytes + s.p.active.value.ruleBytes > MAX_WORD))
  }

  lemma DetachCore(s: State, t: State)
    requires Core(s) && EpochsOk(s) && Detaches(s, t)
    ensures Core(t)
  {
  }

  /** Every live instance enters the terminal cohort. */
  lemma DetachOwners(s: State, t: State)
    requires Core(s) && Participants(s) && OwnersOk(s) && Detaches(s, t)
    ensures OwnersOk(t)
  {
    forall m | m in s.locals ensures m in Cohort(s.p, |s.p.registry|) {
      CohortContains(s.p, |s.p.registry|, m.worker);
    }
  }

  lemma DetachParticipants(s: State, t: State)
    requires Participants(s) && Detaches(s, t)
    ensures Participants(t)
  {
    CohortExisted(s.p, |s.p.registry|);
  }

  lemma StartKeeps(s: State, t: State)
    requires Inv(s) && s.scan == Idle
    requires t == s.(p := s.p.(reclaimerStarted := true, reclaimerActive := true))
    ensures Inv(t)
  {
  }

  lemma ExitKeeps(s: State, t: State)
    requires Inv(s) && s.scan == Idle && !s.p.retired.destroying && !s.p.terminal.destroying
    requires t == s.(p := s.p.(reclaimerActive := false))
    ensures Inv(t)
  {
  }

  lemma LoadQuiescedScan(s: State, t: State)
    requires EpochsOk(s) && LocalsOk(s) && ScanOk(s)
    requires AtMember(s) && s.scan.stage == Fresh && t == Load(s)
    ensures ScanOk(t)
  {
    var m := Scanned(s).cohort[s.scan.index];
    assert s.p.epochs[m.worker].quiesced >= m.instance ==> m !in s.locals;
  }

  lemma LoadEpochScan(s: State, t: State)
    requires EpochsOk(s) && LocalsOk(s) && ScanOk(s) && RetiredOk(s.p)
    requires AtMember(s) && s.scan.stage != Fresh && t == Load(s)
    requires forall m :: m in s.locals ==> s.locals[m].generation <= s.p.version.generation
    ensures ScanOk(t)
  {
  }

  /** Whatever the scanner loads and whenever it loads it, a positive verdict
      is true and stays true. */
  lemma LoadKeeps(s: State, t: State)
    requires Inv(s) && AtMember(s) && t == Load(s)
    ensures Inv(t)
  {
    ScanFrame(s, t);
    NeverAhead(s);
    if s.scan.stage == Fresh {
      LoadQuiescedScan(s, t);
    } else {
      LoadEpochScan(s, t);
    }
  }

  /** A complete cohort has let go of the owner. */
  lemma ScanCompleteReleases(s: State)
    requires Inv(s) && ScanComplete(s)
    ensures forall m :: m in s.locals ==> Scanned(s).owner != Some(s.locals[m])
    ensures s.scan.terminal ==> s.locals == map[]
  {
    var r := Scanned(s);
    forall m | m in s.locals ensures r.owner != Some(s.locals[m]) && !s.scan.terminal {
      if m in r.cohort {
        var k :| 0 <= k < |r.cohort| && r.cohort[k] == m;
        assert Done(s, r.cohort[k], s.scan.terminal);
      }
    }
  }

  lemma BeginDestroyKeeps(s: State, t: State)
    requires Inv(s) && ScanComplete(s) && s.scan.scanner == Reclaimer
    requires t == s.(p := BeginReclaim(s.p, s.scan.terminal), hand := Scanned(s).owner, scan := Idle)
    ensures Inv(t)
  {
    ScanCompleteReleases(s);
  }

  lemma DestroyHandKeeps(s: State, t: State)
    requires Inv(s) && s.hand.Some?
    requires t == s.(hand := None, destroyed := s.destroyed + {s.hand.value})
    ensures Inv(t)
  {
  }

  lemma EndDestroyKeeps(s: State, t: State, last: bool)
    requires Inv(s) && s.scan == Idle && s.hand.None?
    requires if last then s.p.terminal.destroying else s.p.retired.destroying
    requires t == s.(p := EndReclaim(s.p, last))
    ensures Inv(t)
  {
  }

  ghost predicate TearsDown(s: State, t: State) {
    && ScanComplete(s) && s.scan.scanner == Teardown && (s.scan.terminal || !s.p.terminal.pending)
    && t == s.(p := ReclaimConverged(s.p), scan := Idle,
               destroyed := s.destroyed + Owners(s.p.retired.owner) + Owners(s.p.terminal.owner))
  }

  /** After both scans no instance holds either owner. */
  lemma TeardownReleases(s: State, t: State)
    requires Inv(s) && TearsDown(s, t)
    ensures forall m :: m in s.locals ==> s.p.active == Some(s.locals[m])
  {
  }

  /** A teardown that found both cohorts complete owns both snapshots alone. */
  lemma TeardownIsSole(s: State)
    requires Inv(s) && ScanComplete(s) && s.scan.scanner == Teardown && (s.scan.terminal || !s.p.terminal.pending)
    ensures SoleOwner(s, s.p.retired) && SoleOwner(s, s.p.terminal)
  {
    TeardownReleases(s, s.(p := ReclaimConverged(s.p), scan := Idle,
                           destroyed := s.destroyed + Owners(s.p.retired.owner) + Owners(s.p.terminal.owner)));
    HeldByNone(s, s.p.retired);
    HeldByNone(s, s.p.terminal);
  }

  lemma HeldByNone(s: State, r: Record)
    requires Core(s) && s.hand.None? && (r == s.p.retired || r == s.p.terminal)
    requires forall m :: m in s.locals ==> s.p.active == Some(s.locals[m])
    ensures SoleOwner(s, r)
  {
    if r.owner.Some? {
      var holders := set m | m in s.locals && s.locals[m] == r.owner.value;
      assert holders == {};
    }
  }

  lemma TeardownCore(s: State, t: State)
    requires Core(s) && ScanOk(s) && TearsDown(s, t)
    ensures Core(t)
  {
    assert !s.p.reclaimerActive;
    assert BytesOk(t);
    assert DestroyedOk(t);
  }

  lemma TeardownKeeps(s: State, t: State)
    requires Inv(s) && TearsDown(s, t)
    ensures Inv(t)
  {
    TeardownReleases(s, t);
    TeardownCore(s, t);
  }

  predicate OfSupervisor(a: Action) {
    a.ResetEpoch? || a.PublishEpoch? || a.MarkRegistered? || a.QuiesceInstance?
  }

  predicate OfWorker(a: Action) {
    a.SwapLocal? || a.AckLocal? || a.DropLocal?
  }

  predicate OfPublisher(a: Action) {
    a.AcquireCredit? || a.ReleaseCredit? || a.CommitSnapshot? || a.Seal? || a.DetachActive?
  }

  lemma SupervisorStepKeepsInv(s: State, a: Action, t: State)
    requires Inv(s) && Enabled(s, a) && OfSupervisor(a)
    requires t == Apply(s, a)
    ensures Inv(t)
  {
    match a
    case ResetEpoch(w, i) =>
      ResetParticipants(s, t, w, i);
      EpochFrame(s, t);
    case PublishEpoch => PublishKeeps(s, t);
    case MarkRegistered(m) =>
      MarkParticipants(s, t, m.worker);
      EpochFrame(s, t);
    case QuiesceInstance(m) =>
      QuiesceParticipants(s, t, m);
      EpochFrame(s, t);
  }

  lemma WorkerStepKeepsInv(s: State, a: Action, t: State)
    requires Inv(s) && Enabled(s, a) && OfWorker(a)
    requires t == Apply(s, a)
    ensures Inv(t)
  {
    match a
    case SwapLocal(m) => SwapKeeps(s, t, m);
    case AckLocal =>
      AckParticipants(s, t, s.section.member);
      EpochFrame(s, t);
    case DropLocal(m) => DropKeeps(s, t, m);
  }

  lemma PublisherStepKeepsInv(s: State, a: Action, t: State)
    requires Inv(s) && Enabled(s, a) && OfPublisher(a)
    requires t == Apply(s, a)
    ensures Inv(t)
  {
    match a
    case AcquireCredit => CreditKeeps(s, t);
    case ReleaseCredit => CreditKeeps(s, t);
    case CommitSnapshot(c) => CommitKeeps(s, t, c);
    case Seal => SealKeeps(s, t);
    case DetachActive =>
      DetachCore(s, t);
      DetachOwners(s, t);
      DetachParticipants(s, t);
  }

  /** The owner of a complete record is its only owner. */
  lemma CompleteIsSole(s: State)
    requires Inv(s) && ScanComplete(s)
    ensures SoleOwner(s, Scanned(s))
  {
    ScanCompleteReleases(s);
    var r := Scanned(s);
    if r.owner.Some? {
      var holders := set m | m in s.locals && s.locals[m] == r.owner.value;
      assert holders == {};
    }
  }

  predicate OfLoad(a: Action) {
    a.LoadQuiesced? || a.LoadFirst? || a.LoadObserved? || a.LoadSecond?
  }

  /** Steps that begin or end the scan of one record. */
  predicate OfScan(a: Action) {
    a.BeginScan? || a.BeginTeardown? || a.NextTeardown? || a.RefuseTeardown?
  }

  lemma LoadStepKeepsInv(s: State, a: Action, t: State)
    requires Inv(s) && Enabled(s, a) && OfLoad(a) && t == Apply(s, a)
    ensures Inv(t)
  {
    LoadKeeps(s, t);
  }

  lemma ScanStepKeepsInv(s: State, a: Action, t: State)
    requires Inv(s) && Enabled(s, a) && OfScan(a) && t == Apply(s, a)
    ensures Inv(t)
  {
    ScanFrame(s, t);
  }

  lemma ReclaimStepKeepsInv(s: State, a: Action, t: State)
    requires Inv(s) && Enabled(s, a) && !OfSupervisor(a) && !OfWorker(a) && !OfPublisher(a)
    requires t == Apply(s, a)
    ensures Inv(t)
  {
    if OfLoad(a) {
      LoadStepKeepsInv(s, a, t);
    } else if OfScan(a) {
      ScanStepKeepsInv(s, a, t);
    } else {
      DestroyStepKeepsInv(s, a, t);
    }
  }

  lemma DestroyStepKeepsInv(s: State, a: Action, t: State)
    requires Inv(s) && Enabled(s, a) && !OfSupervisor(a) && !OfWorker(a) && !OfPublisher(a) && !OfLoad(a) && !OfScan(a)
    requires t == Apply(s, a)
    ensures Inv(t)
  {
    match a
    case StartReclaimer => StartKeeps(s, t);
    case BeginDestroy => BeginDestroyKeeps(s, t);
    case ExtraOwnerFatal => CompleteIsSole(s);
    case DestroyHand => DestroyHandKeeps(s, t);
    case EndDestroy(last) => EndDestroyKeeps(s, t, last);
    case ExitReclaimer => ExitKeeps(s, t);
    case FinishTeardown => TeardownKeeps(s, t);
  }

  lemma StepKeepsInv(s: State, a: Action, t: State)
    requires Inv(s) && Enabled(s, a) && t == Apply(s, a)
    ensures Inv(t)
  {
    if OfSupervisor(a) {
      SupervisorStepKeepsInv(s, a, t);
    } else if OfWorker(a) {
      WorkerStepKeepsInv(s, a, t);
    } else if OfPublisher(a) {
      PublisherStepKeepsInv(s, a, t);
    } else {
      ReclaimStepKeepsInv(s, a, t);
    }
  }

  // ------------------------------------------------------------- whole runs

  ghost predicate Initial(s: State) {
    exists x: Snapshot, n: nat :: x.generation != 0 &&
      s == State(InitialShared(x, n), map[], Free, Idle, None, false, false, {})
  }

  ghost predicate IsRun(states: seq<State>, actions: seq<Action>) {
    && |states| == |actions| + 1
    && Initial(states[0])
    && forall k {:trigger actions[k]} :: 0 <= k < |actions| ==>
         && |states[k].p.registry| == |states[k].p.epochs|
         && Enabled(states[k], actions[k])
         && states[k + 1] == Apply(states[k], actions[k])
  }

  lemma {:induction false} InvAlways(states: seq<State>, actions: seq<Action>, k: nat)
    requires IsRun(states, actions) && k < |states|
    ensures Inv(states[k])
  {
    if k > 0 {
      InvAlways(states, actions, k - 1);
      StepKeepsInv(states[k - 1], actions[k - 1], states[k]);
    }
  }

  /** Grace-period safety over every run: what was destroyed, or is being
      destroyed, is held by no worker and not published; once a scan found the
      cohort complete its record owns the snapshot alone, so the extra-owner
      exit cannot be taken. */
  lemma GracePeriodSafety(states: seq<State>, actions: seq<Action>, k: nat)
    requires IsRun(states, actions) && k < |states|
    ensures var s := states[k];
            && (forall m :: m in s.locals ==> s.locals[m] !in s.destroyed && s.hand != Some(s.locals[m]))
            && (s.p.active.Some? ==> s.p.active.value !in s.destroyed && s.hand != s.p.active)
            && (ScanComplete(s) ==> SoleOwner(s, Scanned(s)))
            && (|s.p.registry| == |s.p.epochs| ==> !Enabled(s, ExtraOwnerFatal))
  {
    InvAlways(states, actions, k);
    var s := states[k];
    if ScanComplete(s) {
      CompleteIsSole(s);
    }
  }

  /** Over every run: the teardown never finds an owner besides its records. */
  lemma TeardownNeverRefused(states: seq<State>, actions: seq<Action>, k: nat)
    requires IsRun(states, actions) && k < |actions|
    ensures actions[k] != RefuseTeardown
  {
    InvAlways(states, actions, k);
    if actions[k] == RefuseTeardown {
      TeardownIsSole(states[k]);
    }
  }

  /** The same verdict when the cohort is evaluated at one instant: whenever a
      pending record's cohort is complete, no live instance holds its owner. */
  lemma CompleteCohortReleased(states: seq<State>, actions: seq<Action>, k: nat, m: Member)
    requires IsRun(states, actions) && k < |states| && m in states[k].locals
    ensures var p := states[k].p;
            && (p.retired.pending && CohortComplete(p, p.retired) ==> p.retired.owner != Some(states[k].locals[m]))
            && (p.terminal.pending && CohortComplete(p, p.terminal) ==> p.terminal.owner != Some(states[k].locals[m]))
  {
    InvAlways(states, actions, k);
  }

  /** Visibility: a live instance holds at least every generation reported as
      converged, and is never more than one generation behind. */
  lemma UpdateVisibility(states: seq<State>, actions: seq<Action>, k: nat, m: Member, g: nat)
    requires IsRun(states, actions) && k < |states| && m in states[k].locals
    ensures var s := states[k];
            && (WaitOutcome(s.p, g) == Converged ==> s.locals[m].generation >= g)
            && s.p.version.generation <= s.locals[m].generation + 1
            && s.locals[m].generation <= s.p.version.generation
  {
    InvAlways(states, actions, k);
  }

  /** Bookkeeping over every run. */
  lemma PublicationBookkeeping(states: seq<State>, actions: seq<Action>, k: nat)
    requires IsRun(states, actions) && k < |states|
    ensures var p := states[k].p;
            && p.lastReclaimed <= p.lastConverged <= p.version.generation
            && (p.retired.pending ==>
                  && p.creditHeld
                  && (p.retired.destroying || p.retired.owner.Some?)
                  && (p.retired.owner.Some? ==> p.retired.owner.value.generation + 1 == p.retired.version.generation))
            && (!states[k].saturated ==>
                  p.retiredBytes == PendingBytes(p.retired) + PendingBytes(p.terminal))
  {
    InvAlways(states, actions, k);
  }

  function Commits(actions: seq<Action>): nat {
    if actions == [] then 0 else Commits(actions[..|actions| - 1]) + One(actions[|actions| - 1].CommitSnapshot?)
  }

  lemma LoadKeepsVersion(s: State, t: State)
    requires AtMember(s) && t == Load(s)
    ensures t.p == s.p
  {
  }

  lemma TeardownKeepsVersion(p: Shared)
    ensures ReclaimConverged(p).version == p.version
  {
  }

  lemma ReclaimerKeepsVersion(s: State, a: Action, t: State)
    requires |s.p.registry| == |s.p.epochs| && Enabled(s, a) && t == Apply(s, a)
    requires !OfSupervisor(a) && !OfWorker(a) && !OfPublisher(a)
    ensures t.p.version == s.p.version
  {
    if OfLoad(a) {
      LoadKeepsVersion(s, t);
    } else if a.FinishTeardown? {
      TeardownKeepsVersion(s.p);
      assert t.p == ReclaimConverged(s.p);
    } else if a.BeginDestroy? || a.EndDestroy? {
    } else {
      assert t.p == s.p.(reclaimerStarted := t.p.reclaimerStarted, reclaimerActive := t.p.reclaimerActive);
    }
  }

  lemma ParticipantKeepsVersion(s: State, a: Action, t: State)
    requires |s.p.registry| == |s.p.epochs| && Enabled(s, a) && t == Apply(s, a)
    requires OfSupervisor(a) || OfWorker(a)
    ensures t.p.version == s.p.version
  {
    if OfSupervisor(a) {
      SupervisorKeepsVersion(s, a, t);
    }
  }

  lemma SupervisorKeepsVersion(s: State, a: Action, t: State)
    requires |s.p.registry| == |s.p.epochs| && Enabled(s, a) && t == Apply(s, a) && OfSupervisor(a)
    ensures t.p.version == s.p.version
  {
  }

  lemma PublisherGeneration(s: State, a: Action, t: State)
    requires |s.p.registry| == |s.p.epochs| && Enabled(s, a) && t == Apply(s, a) && OfPublisher(a)
    ensures t.p.version.generation == s.p.version.generation + One(a.CommitSnapshot?)
  {
  }

  /** The generation counts commits: one each, and nothing else moves it. */
  lemma {:induction false} GenerationCountsCommits(states: seq<State>, actions: seq<Action>, k: nat)
    requires IsRun(states, actions) && k <= |actions|
    ensures states[k].p.version.generation == states[0].p.version.generation + Commits(actions[..k])
  {
    if k > 0 {
      GenerationCountsCommits(states, actions, k - 1);
      var s, a := states[k - 1], actions[k - 1];
      if OfPublisher(a) {
        PublisherGeneration(s, a, states[k]);
      } else if OfSupervisor(a) || OfWorker(a) {
        ParticipantKeepsVersion(s, a, states[k]);
      } else {
        ReclaimerKeepsVersion(s, a, states[k]);
      }
      assert actions[..k][..k - 1] == actions[..k - 1];
    }
  }

  // -------------------------------------------- why seal comes before detach

  predicate Accounted(p: Shared) {
    p.retiredBytes == PendingBytes(p.retired) + PendingBytes(p.terminal)
  }

  /** Without the seal, a commit that follows the terminal detach keeps the
      byte account exactly when the detached snapshot weighs nothing. */
  lemma CommitAccounting(p: Shared, c: Snapshot)
    requires |p.registry| == |p.epochs| && Accounted(p) && CommitFailure(p, Some(c)).None?
    ensures Accounted(Commit(p, c)) <==> PendingBytes(p.terminal) == 0
  {
  }

  /** One snapshot of ten bytes, detached unsealed, then a commit. */
  lemma UnsealedDetachLosesBytes()
    ensures var p := Detach(InitialShared(Snapshot(0, 1, 1, 10), 0)).(creditHeld := true);
            var c := Snapshot(1, 2, 1, 10);
            && CommitFailure(p, Some(c)).None?
            && Accounted(p) && !Accounted(Commit(p, c))
  {
    var p := Detach(InitialShared(Snapshot(0, 1, 1, 10), 0)).(creditHeld := true);
    assert p.terminal.retiredBytes == 10 && p.retiredBytes == 10;
  }
}
