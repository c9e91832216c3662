/** Progress of the publication: what the workers have done lets the reclaimer go on. */
module PublicationProgress {
  import opened Basics
  import opened FilterPublication
  import opened PublicationProtocol

  /** A finished refresh of `m` at generation `g` or later, or the end of its instance. */
  predicate Serves(s: State, a: Action, m: Member, g: nat) {
    || (a == AckLocal && s.section == Acking(m) && s.p.version.generation >= g)
    || (&& a == QuiesceInstance(m) && m.worker < |s.p.registry| == |s.p.epochs|
        && s.p.registry[m.worker] && s.p.epochs[m.worker].published == m.instance)
  }

  predicate HasQuiesced(s: State, m: Member) {
    m.worker < |s.p.epochs| && s.p.epochs[m.worker].quiesced >= m.instance
  }

  predicate HasObserved(s: State, m: Member, g: nat) {
    m.worker < |s.p.epochs| && s.p.epochs[m.worker].published == m.instance && s.p.epochs[m.worker].observed >= g
  }

  predicate Served(s: State, m: Member, g: nat) {
    HasQuiesced(s, m) || HasObserved(s, m, g)
  }

  // ------------------------------------------------------- what was done stays done

  lemma ServesServed(s: State, a: Action, t: State, m: Member, g: nat)
    requires Inv(s) && Enabled(s, a) && t == Apply(s, a) && Serves(s, a, m, g)
    ensures Served(t, m, g)
  {
  }

  lemma RegistrationKeepsServed(s: State, a: Action, t: State, m: Member, g: nat)
    requires EpochsOk(s) && SectionOk(s) && Enabled(s, a) && t == Apply(s, a) && OfSupervisor(a)
    requires Served(s, m, g)
    ensures Served(t, m, g) && (HasQuiesced(s, m) ==> HasQuiesced(t, m))
  {
  }

  lemma WorkerKeepsServed(s: State, a: Action, t: State, m: Member, g: nat)
    requires EpochsOk(s) && Enabled(s, a) && t == Apply(s, a) && OfWorker(a)
    requires Served(s, m, g)
    ensures Served(t, m, g) && (HasQuiesced(s, m) ==> HasQuiesced(t, m))
  {
  }

  lemma PublisherKeepsEpochs(s: State, a: Action, t: State)
    requires |s.p.registry| == |s.p.epochs| && Enabled(s, a) && t == Apply(s, a) && OfPublisher(a)
    ensures t.p.epochs == s.p.epochs
  {
  }

  lemma ReclaimerKeepsEpochs(s: State, a: Action, t: State)
    requires |s.p.registry| == |s.p.epochs| && Enabled(s, a) && t == Apply(s, a)
    requires !OfSupervisor(a) && !OfWorker(a) && !OfPublisher(a)
    ensures t.p.epochs == s.p.epochs
  {
    if OfLoad(a) {
      LoadKeepsVersion(s, t);
    } else if OfScan(a) {
      assert t.p == s.p;
    } else {
      DestroyKeepsEpochs(s, a, t);
    }
  }

  lemma DestroyKeepsEpochs(s: State, a: Action, t: State)
    requires |s.p.registry| == |s.p.epochs| && Enabled(s, a) && t == Apply(s, a)
    requires !OfSupervisor(a) && !OfWorker(a) && !OfPublisher(a) && !OfLoad(a) && !OfScan(a)
    ensures t.p.epochs == s.p.epochs
  {
    RecordsKeepEpochs(s.p, true);
    RecordsKeepEpochs(s.p, false);
    match a
    case StartReclaimer =>
    case BeginDestroy => assert t.p == BeginReclaim(s.p, s.scan.terminal);
    case ExtraOwnerFatal =>
    case DestroyHand =>
    case EndDestroy(last) => assert t.p == EndReclaim(s.p, last);
    case ExitReclaimer =>
    case FinishTeardown => assert t.p == ReclaimConverged(s.p);
  }

  lemma RecordsKeepEpochs(p: Shared, terminal: bool)
    ensures BeginReclaim(p, terminal).epochs == EndReclaim(p, terminal).epochs == ReclaimConverged(p).epochs == p.epochs
  {
  }

  lemma StepKeepsServed(s: State, a: Action, t: State, m: Member, g: nat)
    requires Inv(s) && Enabled(s, a) && t == Apply(s, a) && Served(s, m, g)
    ensures Served(t, m, g) && (HasQuiesced(s, m) ==> HasQuiesced(t, m))
  {
    if OfSupervisor(a) {
      RegistrationKeepsServed(s, a, t, m, g);
    } else if OfWorker(a) {
      WorkerKeepsServed(s, a, t, m, g);
    } else if OfPublisher(a) {
      PublisherKeepsEpochs(s, a, t);
    } else {
      ReclaimerKeepsEpochs(s, a, t);
    }
  }

  /** Once a member has refreshed or quiesced, it has for good. */
  lemma {:induction false} ServedStays(states: seq<State>, actions: seq<Action>, i: nat, k: nat, m: Member, g: nat)
    requires IsRun(states, actions) && i < k < |states| && Serves(states[i], actions[i], m, g)
    ensures Served(states[k], m, g)
  {
    if k == i + 1 {
      InvAlways(states, actions, i);
      ServesServed(states[i], actions[i], states[k], m, g);
    } else {
      ServedStays(states, actions, i, k - 1, m, g);
      InvAlways(states, actions, k - 1);
      StepKeepsServed(states[k - 1], actions[k - 1], states[k], m, g);
    }
  }

  // ------------------------------------------------------- nothing stands in the way of a worker or the publisher

  /** A live instance can always refresh while something is published, and then holds and has observed the published generation. */
  lemma RefreshPossible(s: State, m: Member, t: State, u: State)
    requires Inv(s) && m in s.locals && s.section == Free && s.p.active.Some?
    requires Enabled(s, SwapLocal(m)) ==> t == Apply(s, SwapLocal(m))
    requires |t.p.registry| == |t.p.epochs| && Enabled(t, AckLocal) ==> u == Apply(t, AckLocal)
    ensures Enabled(s, SwapLocal(m)) && |t.p.registry| == |t.p.epochs| && Enabled(t, AckLocal)
    ensures m in u.locals && u.locals[m] == s.p.active.value && HasObserved(u, m, s.p.version.generation) && u.section == Free
    ensures Serves(t, AckLocal, m, s.p.version.generation)
  {
  }

  /** An open publication with a free credit takes the next generation. */
  lemma CommitPossible(s: State, c: Snapshot, t: State)
    requires Inv(s) && Unlocked(s) && !s.p.creditHeld && !s.p.isSealed && s.p.version.generation < MAX_WORD
    requires c.generation == s.p.version.generation + 1
    requires Enabled(s, AcquireCredit) ==> t == Apply(s, AcquireCredit)
    ensures Enabled(s, AcquireCredit) && |t.p.registry| == |t.p.epochs| && Enabled(t, CommitSnapshot(c))
    ensures Apply(t, CommitSnapshot(c)).p.active == Some(c)
  {
  }

  // ------------------------------------------------------- the scan of the retired record

  function StageNumber(stage: Stage): nat {
    match stage
    case Fresh => 0
    case NotQuiesced => 1
    case SawInstance(_) => 2
    case SawObserved(_, _) => 3
  }

  /** How far a scan has come, in loads. */
  function Position(scan: Scan): nat {
    if scan.Idle? then 0 else 4 * scan.index + StageNumber(scan.stage)
  }

  /** The reclaimer reads the cohort of the retired record. */
  predicate Reading(s: State, r: Record) {
    && s.scan.Scanning? && s.scan.scanner == Reclaimer && !s.scan.terminal && s.p.retired == r && s.scan.index <= |r.cohort|
    && (s.scan.stage != Fresh ==> s.scan.index < |r.cohort|)
  }

  predicate AllServed(s: State, r: Record) {
    forall k :: 0 <= k < |r.cohort| ==> Served(s, r.cohort[k], r.version.generation)
  }

  /** What was loaded of the current member is still so. */
  predicate Current(s: State, m: Member, g: nat)
    requires s.scan.Scanning?
  {
    && !HasQuiesced(s, m)
    && match s.scan.stage
       case SawInstance(first) => first == m.instance
       case SawObserved(first, observed) => first == m.instance && observed >= g
       case _ => true
  }

  predicate Favourable(s: State, r: Record) {
    && Reading(s, r) && AllServed(s, r)
    && (s.scan.stage != Fresh ==> Current(s, r.cohort[s.scan.index], r.version.generation))
  }

  /** A load moves on: with every member served there is nothing to wait for. */
  lemma LoadFavours(s: State, t: State, r: Record)
    requires Favourable(s, r) && AtMember(s) && t == Load(s)
    ensures Favourable(t, r) && Position(t.scan) > Position(s.scan)
  {
    var m := r.cohort[s.scan.index];
    assert Served(s, m, r.version.generation);
  }

  lemma ParticipantKeepsScan(s: State, a: Action, t: State)
    requires |s.p.registry| == |s.p.epochs| && Enabled(s, a) && t == Apply(s, a) && (OfSupervisor(a) || OfWorker(a))
    ensures t.scan == s.scan && t.p.retired == s.p.retired
  {
  }

  /** The publisher needs the mutex that a scan holds. */
  lemma PublisherNeedsMutex(s: State, a: Action)
    requires |s.p.registry| == |s.p.epochs| && Enabled(s, a) && OfPublisher(a)
    ensures s.scan == Idle
  {
  }

  /** While the reclaimer reads, its next steps are loads or the destruction. */
  lemma ReclaimerOnlyLoads(s: State, a: Action, r: Record)
    requires Inv(s) && Enabled(s, a) && !OfSupervisor(a) && !OfWorker(a) && !OfPublisher(a) && !OfLoad(a) && Reading(s, r)
    ensures a == BeginDestroy || a.DestroyHand?
  {
    if a == ExtraOwnerFatal {
      CompleteIsSole(s);
    }
  }

  lemma OtherKeepsScan(s: State, a: Action, t: State, r: Record)
    requires Inv(s) && Enabled(s, a) && t == Apply(s, a) && !OfLoad(a) && a != BeginDestroy && Reading(s, r)
    ensures t.scan == s.scan && t.p.retired == s.p.retired
  {
    if OfSupervisor(a) || OfWorker(a) {
      ParticipantKeepsScan(s, a, t);
    } else if OfPublisher(a) {
      PublisherNeedsMutex(s, a);
    } else {
      ReclaimerOnlyLoads(s, a, r);
    }
  }

  /** Only the end of its own instance makes a member quiesce. */
  lemma QuiescesByItself(s: State, a: Action, t: State, m: Member, g: nat)
    requires Inv(s) && Enabled(s, a) && t == Apply(s, a) && HasObserved(s, m, g) && !HasQuiesced(s, m) && HasQuiesced(t, m)
    ensures a == QuiesceInstance(m)
  {
    if OfPublisher(a) {
      PublisherKeepsEpochs(s, a, t);
    } else if !OfSupervisor(a) && !OfWorker(a) {
      ReclaimerKeepsEpochs(s, a, t);
    }
  }

  lemma ServedByAll(s: State, a: Action, t: State, r: Record)
    requires Inv(s) && Enabled(s, a) && t == Apply(s, a) && AllServed(s, r)
    ensures AllServed(t, r)
  {
    forall k | 0 <= k < |r.cohort| ensures Served(t, r.cohort[k], r.version.generation) {
      StepKeepsServed(s, a, t, r.cohort[k], r.version.generation);
    }
  }

  lemma OtherFavours(s: State, a: Action, t: State, r: Record)
    requires Inv(s) && Enabled(s, a) && t == Apply(s, a) && !OfLoad(a) && a != BeginDestroy && Favourable(s, r)
    requires a.QuiesceInstance? ==> a.member !in r.cohort
    ensures Favourable(t, r) && Position(t.scan) == Position(s.scan)
  {
    OtherKeepsScan(s, a, t, r);
    ServedByAll(s, a, t, r);
    if s.scan.stage != Fresh {
      var m := r.cohort[s.scan.index];
      assert Served(s, m, r.version.generation);
      if HasQuiesced(t, m) {
        QuiescesByItself(s, a, t, m, r.version.generation);
      }
    }
  }

  // ------------------------------------------------------- whole runs

  /** The number of loads among the steps from `first` to before `end`. */
  function Loads(actions: seq<Action>, first: nat, end: nat): nat
    requires end <= |actions|
  {
    if end <= first then 0 else Loads(actions, first, end - 1) + One(OfLoad(actions[end - 1]))
  }

  /** From step `k` on the reclaimer reads the retired record, whose members were all served before. */
  ghost predicate ScanAfterService(states: seq<State>, actions: seq<Action>, k: nat) {
    && IsRun(states, actions) && k < |actions| && actions[k] == BeginScan && states[k].p.retired.pending
    && var r := states[k].p.retired;
       forall c :: 0 <= c < |r.cohort| ==>
         exists i: nat :: i < k && Serves(states[i], actions[i], r.cohort[c], r.version.generation)
  }

  lemma ScanStarts(states: seq<State>, actions: seq<Action>, k: nat)
    requires ScanAfterService(states, actions, k)
    ensures AllServed(states[k], states[k].p.retired) && Favourable(states[k + 1], states[k].p.retired)
  {
    var r := states[k].p.retired;
    forall c | 0 <= c < |r.cohort| ensures Served(states[k], r.cohort[c], r.version.generation) {
      var i: nat :| i < k && Serves(states[i], actions[i], r.cohort[c], r.version.generation);
      ServedStays(states, actions, i, k, r.cohort[c], r.version.generation);
    }
    InvAlways(states, actions, k);
    BeginFavours(states[k], states[k + 1], r);
  }

  lemma BeginFavours(s: State, t: State, r: Record)
    requires |s.p.registry| == |s.p.epochs| && Enabled(s, BeginScan) && t == Apply(s, BeginScan)
    requires r == s.p.retired && r.pending && AllServed(s, r)
    ensures Favourable(t, r) && Position(t.scan) == 0 && t.p == s.p
  {
  }

  lemma FavoursAt(states: seq<State>, actions: seq<Action>, j: nat, r: Record)
    requires IsRun(states, actions) && j < |actions| && Favourable(states[j], r) && actions[j] != BeginDestroy
    requires actions[j].QuiesceInstance? ==> actions[j].member !in r.cohort
    ensures Favourable(states[j + 1], r) && Position(states[j + 1].scan) >= Position(states[j].scan) + One(OfLoad(actions[j]))
  {
    InvAlways(states, actions, j);
    StepFavours(states[j], actions[j], states[j + 1], r);
  }

  lemma StepFavours(s: State, a: Action, t: State, r: Record)
    requires Inv(s) && Enabled(s, a) && t == Apply(s, a) && a != BeginDestroy && Favourable(s, r)
    requires a.QuiesceInstance? ==> a.member !in r.cohort
    ensures Favourable(t, r) && Position(t.scan) >= Position(s.scan) + One(OfLoad(a))
  {
    if OfLoad(a) {
      LoadFavours(s, t, r);
    } else {
      OtherFavours(s, a, t, r);
    }
  }

  /** Between the two steps the record is not destroyed and none of its members ends. */
  ghost predicate Undisturbed(actions: seq<Action>, k: nat, l: nat, cohort: seq<Member>) {
    forall j {:trigger actions[j]} :: k < j < l && j < |actions| ==>
      actions[j] != BeginDestroy && (actions[j].QuiesceInstance? ==> actions[j].member !in cohort)
  }

  lemma {:induction false} ScanAdvances(states: seq<State>, actions: seq<Action>, k: nat, l: nat, r: Record)
    requires IsRun(states, actions) && k < l < |states| && Favourable(states[k + 1], r) && Undisturbed(actions, k, l, r.cohort)
    ensures Favourable(states[l], r) && Position(states[l].scan) >= Loads(actions, k + 1, l)
  {
    if l > k + 1 {
      assert Undisturbed(actions, k, l - 1, r.cohort);
      ScanAdvances(states, actions, k, l - 1, r);
      var last := actions[l - 1];
      FavoursAt(states, actions, l - 1, r);
    }
  }

  /**
   * Progress: once every member of the cohort has refreshed past the version or
   * quiesced, a scan that is not disturbed by the end of a member ends complete
   * after four loads for each, and the record is destroyed and reported as
   * converged.
   */
  lemma ServedScanCompletes(states: seq<State>, actions: seq<Action>, k: nat, l: nat, r: Record)
    requires ScanAfterService(states, actions, k) && k < l < |states| && r == states[k].p.retired && Undisturbed(actions, k, l, r.cohort)
    requires Loads(actions, k + 1, l) >= 4 * |r.cohort|
    ensures ScanComplete(states[l]) && |states[l].p.registry| == |states[l].p.epochs| && Enabled(states[l], BeginDestroy)
    ensures var t := Apply(states[l], BeginDestroy);
            t.p.lastConverged >= r.version.generation && t.p.retired.owner.None? && t.hand == r.owner
  {
    ScanStarts(states, actions, k);
    ScanAdvances(states, actions, k, l, r);
    InvAlways(states, actions, l);
    CompleteIsSole(states[l]);
  }

  // ------------------------------------------------------- what can disturb a scan

  /** What was loaded of the current member was so when it was loaded; the member may have ended since. */
  predicate Honest(start: State, s: State, r: Record) {
    && Reading(s, r) && AllServed(s, r)
    && (s.scan.stage != Fresh ==>
          var m := r.cohort[s.scan.index];
          !HasQuiesced(start, m) && (HasQuiesced(s, m) || Current(s, m, r.version.generation)))
  }

  predicate QuiescedMeanwhile(start: State, s: State, r: Record) {
    exists c :: 0 <= c < |r.cohort| && !HasQuiesced(start, r.cohort[c]) && HasQuiesced(s, r.cohort[c])
  }

  lemma LoadHonest(start: State, s: State, t: State, r: Record)
    requires Honest(start, s, r) && AtMember(s) && t == Load(s)
    requires forall c :: 0 <= c < |r.cohort| && HasQuiesced(start, r.cohort[c]) ==> HasQuiesced(s, r.cohort[c])
    ensures Honest(start, t, r) || (t.scan == Idle && QuiescedMeanwhile(start, s, r))
  {
    var m := r.cohort[s.scan.index];
    assert Served(s, m, r.version.generation);
  }

  lemma OtherHonest(start: State, s: State, a: Action, t: State, r: Record)
    requires Inv(s) && Enabled(s, a) && t == Apply(s, a) && !OfLoad(a) && a != BeginDestroy && Honest(start, s, r)
    ensures Honest(start, t, r)
  {
    OtherKeepsScan(s, a, t, r);
    ServedByAll(s, a, t, r);
    if s.scan.stage != Fresh {
      StepKeepsServed(s, a, t, r.cohort[s.scan.index], r.version.generation);
    }
  }

  lemma QuiescedKept(s: State, a: Action, t: State, r: Record)
    requires Inv(s) && Enabled(s, a) && t == Apply(s, a) && AllServed(s, r)
    ensures forall c :: 0 <= c < |r.cohort| && HasQuiesced(s, r.cohort[c]) ==> HasQuiesced(t, r.cohort[c])
  {
    forall c | 0 <= c < |r.cohort| && HasQuiesced(s, r.cohort[c]) ensures HasQuiesced(t, r.cohort[c]) {
      StepKeepsServed(s, a, t, r.cohort[c], r.version.generation);
    }
  }

  lemma HonestAt(states: seq<State>, actions: seq<Action>, k: nat, j: nat, r: Record)
    requires IsRun(states, actions) && k < j < |actions| && actions[j] != BeginDestroy && Honest(states[k], states[j], r)
    requires forall c :: 0 <= c < |r.cohort| && HasQuiesced(states[k], r.cohort[c]) ==> HasQuiesced(states[j], r.cohort[c])
    ensures Honest(states[k], states[j + 1], r) || (states[j + 1].scan == Idle && QuiescedMeanwhile(states[k], states[j], r))
    ensures forall c :: 0 <= c < |r.cohort| && HasQuiesced(states[k], r.cohort[c]) ==> HasQuiesced(states[j + 1], r.cohort[c])
  {
    InvAlways(states, actions, j);
    QuiescedKept(states[j], actions[j], states[j + 1], r);
    if OfLoad(actions[j]) {
      LoadHonest(states[k], states[j], states[j + 1], r);
    } else {
      OtherHonest(states[k], states[j], actions[j], states[j + 1], r);
    }
  }

  /** Until it ends, the scan has read nothing that was not so. */
  ghost predicate StillScanning(states: seq<State>, actions: seq<Action>, k: nat, l: nat) {
    forall j {:trigger actions[j]} :: k < j < l && j < |actions| && j + 1 < |states| ==> actions[j] != BeginDestroy && states[j + 1].scan.Scanning?
  }

  lemma {:induction false} HonestWhileScanning(states: seq<State>, actions: seq<Action>, k: nat, l: nat, r: Record)
    requires ScanAfterService(states, actions, k) && k < l < |states| && r == states[k].p.retired && StillScanning(states, actions, k, l)
    ensures Honest(states[k], states[l], r)
    ensures forall c :: 0 <= c < |r.cohort| && HasQuiesced(states[k], r.cohort[c]) ==> HasQuiesced(states[l], r.cohort[c])
  {
    if l == k + 1 {
      ScanStarts(states, actions, k);
      InvAlways(states, actions, k);
      QuiescedKept(states[k], actions[k], states[l], r);
    } else {
      assert StillScanning(states, actions, k, l - 1);
      HonestWhileScanning(states, actions, k, l - 1, r);
      var last := actions[l - 1];
      HonestAt(states, actions, k, l - 1, r);
    }
  }

  /**
   * The only thing that makes such a scan give up is that a member ended after
   * it began. A member ends once, so that happens at most once for each.
   */
  lemma ScanGivesUpOnlyAfterQuiesce(states: seq<State>, actions: seq<Action>, k: nat, l: nat, r: Record)
    requires ScanAfterService(states, actions, k) && k < l < |actions| && r == states[k].p.retired && StillScanning(states, actions, k, l)
    requires actions[l] != BeginDestroy && states[l + 1].scan == Idle
    ensures QuiescedMeanwhile(states[k], states[l], r)
  {
    HonestWhileScanning(states, actions, k, l, r);
    HonestAt(states, actions, k, l, r);
  }
}
