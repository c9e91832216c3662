/** Snapshot publication: the critical sections of the publication state, as
    functions of its fields, and the object whose methods execute them. */
module FilterPublication {
  import opened Basics

  /** A compiled rule set. `address` is the identity of the shared allocation. */
  datatype Snapshot = Snapshot(address: nat, generation: nat, ruleCount: nat, ruleBytes: nat)

  datatype Registration = Unregistered | Starting | Registered

  /** The part of a logical worker that other threads read. */
  datatype Epoch = Epoch(published: nat, observed: nat, registration: Registration, quiesced: nat)

  datatype Version = Version(generation: nat, ruleCount: nat)

  /** An exact worker instance. */
  datatype Member = Member(worker: nat, instance: nat)

  datatype Record = Record(
    owner: Option<Snapshot>,
    version: Version,
    publishedBytes: nat,
    retiredBytes: nat,
    cohort: seq<Member>,
    pending: bool,
    destroying: bool,
    terminal: bool)

  const NO_VERSION := Version(0, 0)
  const EMPTY_RECORD := Record(None, NO_VERSION, 0, 0, [], false, false, false)

  /** Every field guarded by the two mutexes. `registry[w]` says that slot w
      holds the (fixed) epoch of worker w. */
  datatype Shared = Shared(
    active: Option<Snapshot>,
    registry: seq<bool>,
    epochs: seq<Epoch>,
    version: Version,
    ruleBytes: nat,
    isSealed: bool,
    retired: Record,
    terminal: Record,
    creditHeld: bool,
    retiredBytes: nat,
    lastConverged: nat,
    lastReclaimed: nat,
    reclaimerStarted: bool,
    reclaimerActive: bool)

  datatype CommitError = NoRetirementCredit | PublicationSealed | InvalidCandidate | GenerationMismatch

  datatype WaitResult = Converged | ReclaimerUnavailable | StillWaiting

  // ---------------------------------------------------------------- workers

  predicate CanRegister(p: Shared, worker: nat, instance: nat) {
    && worker < |p.registry|
    && instance != 0
    && !p.registry[worker]
    && !p.isSealed
    && p.active.Some?
  }

  /** First store of a registration: the acknowledgement is cleared before the
      new instance becomes visible. */
  function RegisterReset(p: Shared, worker: nat): Shared
    requires worker < |p.epochs|
  {
    p.(epochs := p.epochs[worker := p.epochs[worker].(observed := 0, registration := Starting)])
  }

  /** Last store of a registration. */
  function RegisterPublish(p: Shared, worker: nat, instance: nat): Shared
    requires worker < |p.epochs| && worker < |p.registry|
  {
    p.(epochs := p.epochs[worker := p.epochs[worker].(published := instance)],
       registry := p.registry[worker := true])
  }

  predicate CanMark(p: Shared, worker: nat, instance: nat)
    requires |p.registry| == |p.epochs|
  {
    && worker < |p.registry|
    && p.registry[worker]
    && p.epochs[worker].published == instance
    && p.epochs[worker].registration == Starting
    && p.epochs[worker].observed >= p.version.generation
  }

  function Mark(p: Shared, worker: nat): Shared
    requires worker < |p.epochs|
  {
    p.(epochs := p.epochs[worker := p.epochs[worker].(registration := Registered)])
  }

  /** The conditions under which a refresh leaves everything untouched. */
  predicate CanRefresh(p: Shared, worker: nat, instance: nat, local: Option<Snapshot>)
    requires worker < |p.epochs|
  {
    && p.epochs[worker].published == instance
    && p.epochs[worker].registration != Unregistered
    && p.active.Some?
    && local.Some?
    && local.value.generation <= p.active.value.generation
    && p.epochs[worker].observed <= local.value.generation
  }

  /** The acknowledgement that follows the swap of the local owner. */
  function Acknowledge(p: Shared, worker: nat, local: Snapshot): Shared
    requires worker < |p.epochs|
  {
    if p.epochs[worker].observed < local.generation then
      p.(epochs := p.epochs[worker := p.epochs[worker].(observed := local.generation)])
    else p
  }

  function Quiesce(p: Shared, worker: nat, instance: nat): Shared
    requires |p.registry| == |p.epochs|
  {
    if worker < |p.registry| && p.registry[worker] && p.epochs[worker].published == instance then
      p.(epochs := p.epochs[worker := p.epochs[worker].(quiesced := instance, registration := Unregistered)],
         registry := p.registry[worker := false])
    else p
  }

  // -------------------------------------------------------------- publisher

  /** The instances a publication has to wait for, in worker order, among the
      first `n` workers. */
  function Cohort(p: Shared, n: nat): seq<Member>
    requires |p.registry| == |p.epochs| && n <= |p.registry|
  {
    if n == 0 then []
    else
      Cohort(p, n - 1) +
      if p.registry[n - 1] && p.epochs[n - 1].published != 0 && p.epochs[n - 1].registration != Unregistered
      then [Member(n - 1, p.epochs[n - 1].published)] else []
  }

  predicate IsRegistered(registry: seq<bool>, epochs: seq<Epoch>, m: Member) {
    && m.worker < |registry| && m.worker < |epochs| && registry[m.worker]
    && m.instance == epochs[m.worker].published != 0 && epochs[m.worker].registration != Unregistered
  }

  /** The cohort holds exactly the registered instances of the first `n` workers, each once, in their order. */
  ghost predicate Listed(cohort: seq<Member>, registry: seq<bool>, epochs: seq<Epoch>, n: nat) {
    && (forall i, j :: 0 <= i < j < |cohort| ==> cohort[i].worker < cohort[j].worker)
    && (forall i :: 0 <= i < |cohort| ==> cohort[i].worker < n && IsRegistered(registry, epochs, cohort[i]))
    && (forall m :: IsRegistered(registry, epochs, m) && m.worker < n ==> m in cohort)
  }

  lemma {:induction false} CohortListed(p: Shared, n: nat)
    requires |p.registry| == |p.epochs| && n <= |p.registry|
    ensures Listed(Cohort(p, n), p.registry, p.epochs, n)
  {
    if n > 0 {
      CohortListed(p, n - 1);
      var front, all, last := Cohort(p, n - 1), Cohort(p, n), Member(n - 1, p.epochs[n - 1].published);
      assert all == if IsRegistered(p.registry, p.epochs, last) then front + [last] else front by {
        assert front + [] == front;
      }
      ListedMore(front, p.registry, p.epochs, n, last, all);
    }
  }

  lemma ListedMore(front: seq<Member>, registry: seq<bool>, epochs: seq<Epoch>, n: nat, last: Member, all: seq<Member>)
    requires 0 < n <= |registry| == |epochs| && Listed(front, registry, epochs, n - 1) && last == Member(n - 1, epochs[n - 1].published)
    requires all == if IsRegistered(registry, epochs, last) then front + [last] else front
    ensures Listed(all, registry, epochs, n)
  {
    forall m | IsRegistered(registry, epochs, m) && m.worker < n ensures m in all {
      if m.worker == n - 1 {
        assert m == last && all[|front|] == last;
      }
    }
  }

  function CommitFailure(p: Shared, candidate: Option<Snapshot>): Option<CommitError> {
    if !p.creditHeld || p.retired.pending then Some(NoRetirementCredit)
    else if p.isSealed then Some(PublicationSealed)
    else if candidate.None? || candidate.value.generation == 0 then Some(InvalidCandidate)
    else if p.version.generation == MAX_WORD || candidate.value.generation != p.version.generation + 1
    then Some(GenerationMismatch)
    else None
  }

  function Commit(p: Shared, candidate: Snapshot): Shared
    requires |p.registry| == |p.epochs|
  {
    var published := Version(candidate.generation, candidate.ruleCount);
    p.(active := Some(candidate),
       version := published,
       ruleBytes := candidate.ruleBytes,
       retired := Record(p.active, published, candidate.ruleBytes, p.ruleBytes,
                         Cohort(p, |p.registry|), true, false, false),
       retiredBytes := p.ruleBytes)
  }

  function Detach(p: Shared): Shared
    requires |p.registry| == |p.epochs|
  {
    if p.terminal.pending || p.active.None? then p
    else
      var owner := p.active.value;
      p.(active := None,
         terminal := Record(p.active, Version(owner.generation, owner.ruleCount), owner.ruleBytes,
                            owner.ruleBytes, Cohort(p, |p.registry|), true, false, true),
         retiredBytes := SaturatedAdd(p.retiredBytes, owner.ruleBytes))
  }

  /** What a commit publishes, and what it retires for whom. */
  lemma CommitEffect(p: Shared, candidate: Snapshot)
    requires |p.registry| == |p.epochs|
    ensures var t := Commit(p, candidate);
            && t.active == Some(candidate) && t.version.generation == candidate.generation && t.version.ruleCount == candidate.ruleCount
            && t.ruleBytes == candidate.ruleBytes && t.retiredBytes == p.ruleBytes
            && t.retired.owner == p.active && t.retired.version == t.version && t.retired.retiredBytes == p.ruleBytes
            && t.retired.publishedBytes == candidate.ruleBytes && t.retired.pending && !t.retired.destroying && !t.retired.terminal
            && Listed(t.retired.cohort, p.registry, p.epochs, |p.registry|)
            && t == p.(active := t.active, version := t.version, ruleBytes := t.ruleBytes, retired := t.retired, retiredBytes := t.retiredBytes)
  {
    CohortListed(p, |p.registry|);
  }

  /** What a detach leaves behind. */
  lemma DetachEffect(p: Shared)
    requires |p.registry| == |p.epochs|
    ensures var t := Detach(p);
            if p.terminal.pending || p.active.None? then t == p
            else
              && t.active.None? && t.terminal.owner == p.active && t.terminal.pending && t.terminal.terminal && !t.terminal.destroying
              && t.terminal.version == Version(p.active.value.generation, p.active.value.ruleCount)
              && t.terminal.retiredBytes == t.terminal.publishedBytes == p.active.value.ruleBytes
              && (p.retiredBytes <= MAX_WORD ==> t.retiredBytes == Min(MAX_WORD, p.retiredBytes + p.active.value.ruleBytes))
              && Listed(t.terminal.cohort, p.registry, p.epochs, |p.registry|)
              && t == p.(active := None, terminal := t.terminal, retiredBytes := t.retiredBytes)
  {
    CohortListed(p, |p.registry|);
  }

  // -------------------------------------------------------------- reclaimer

  /** An instance no longer needs the record: it quiesced, or (for a normal
      record) it is still the visible instance and acknowledged the version. */
  predicate MemberComplete(p: Shared, m: Member, generation: nat, terminal: bool) {
    && m.worker < |p.epochs|
    && var e := p.epochs[m.worker];
       || e.quiesced >= m.instance
       || (!terminal && e.published == m.instance && e.observed >= generation)
  }

  predicate CohortComplete(p: Shared, r: Record) {
    forall k :: 0 <= k < |r.cohort| ==> MemberComplete(p, r.cohort[k], r.version.generation, r.terminal)
  }

  /** Every member has quiesced or, for a normal record, acknowledged the version as the visible instance. */
  predicate AllFinished(epochs: seq<Epoch>, r: Record) {
    forall m :: m in r.cohort ==>
      && m.worker < |epochs|
      && (m.instance <= epochs[m.worker].quiesced
          || (!r.terminal && m.instance == epochs[m.worker].published && r.version.generation <= epochs[m.worker].observed))
  }

  /** What one reclaimer iteration finds. */
  datatype IterationOutcome = NothingPending | Wait | Fatal | Destroy(terminal: bool)

  function NextRecord(p: Shared): Record {
    if p.retired.pending then p.retired else p.terminal
  }

  function NextIteration(p: Shared, uses: nat): IterationOutcome {
    if !p.retired.pending && !p.terminal.pending then NothingPending
    else if !CohortComplete(p, NextRecord(p)) then Wait
    else if NextRecord(p).owner.Some? && uses != 1 then Fatal
    else Destroy(!p.retired.pending)
  }

  /** The owner leaves the record; the credit and the record stay held. */
  function BeginReclaim(p: Shared, terminal: bool): Shared {
    if terminal then p.(terminal := p.terminal.(destroying := true, owner := None))
    else p.(retired := p.retired.(destroying := true, owner := None),
            lastConverged := Max(p.lastConverged, p.retired.version.generation))
  }

  function EndReclaim(p: Shared, terminal: bool): Shared {
    var r := if terminal then p.terminal else p.retired;
    var q := p.(retiredBytes := p.retiredBytes - Min(p.retiredBytes, r.retiredBytes));
    if terminal then q.(terminal := EMPTY_RECORD)
    else q.(retired := EMPTY_RECORD,
            creditHeld := false,
            lastReclaimed := Max(p.lastReclaimed, r.version.generation))
  }

  /** Whether the teardown thread may drop both pending owners. */
  predicate CanReclaimConverged(p: Shared, retiredUses: nat, terminalUses: nat) {
    && !p.reclaimerActive
    && p.isSealed
    && (p.retired.pending ==> CohortComplete(p, p.retired))
    && (p.terminal.pending ==> CohortComplete(p, p.terminal))
    && (p.retired.owner.Some? ==> retiredUses == 1)
    && (p.terminal.owner.Some? ==> terminalUses == 1)
  }

  function ReclaimRecord(p: Shared, terminal: bool): Shared {
    if terminal then
      if p.terminal.pending then EndReclaim(p, true) else p
    else
      if p.retired.pending then
        EndReclaim(p.(lastConverged := Max(p.lastConverged, p.retired.version.generation)), false)
      else p
  }

  function ReclaimConverged(p: Shared): Shared {
    ReclaimRecord(ReclaimRecord(p, false), true)
  }

  /** What a waiter for `generation` sees when it evaluates its predicate. */
  function WaitOutcome(p: Shared, generation: nat): WaitResult {
    if p.lastConverged >= generation then Converged
    else if p.reclaimerStarted && !p.reclaimerActive then ReclaimerUnavailable
    else StillWaiting
  }

  // ----------------------------------------------------------------- object

  class FilterPublicationState {
    var active: Option<Snapshot>
    var registry: seq<bool>
    var epochs: seq<Epoch>
    var version: Version
    var ruleBytes: nat
    var isSealed: bool
    var retired: Record
    var terminal: Record
    var creditHeld: bool
    var retiredBytes: nat
    var lastConverged: nat
    var lastReclaimed: nat
    var reclaimerStarted: bool
    var reclaimerActive: bool

    ghost predicate Valid()
      reads this
    {
      |registry| == |epochs|
    }

    ghost function View(): Shared
      reads this
    {
      Shared(active, registry, epochs, version, ruleBytes, isSealed, retired, terminal,
             creditHeld, retiredBytes, lastConverged, lastReclaimed, reclaimerStarted, reclaimerActive)
    }

    constructor (initial: Snapshot, maximumWorkers: nat)
      requires initial.generation != 0
      ensures Valid()
      ensures View() == InitialShared(initial, maximumWorkers)
    {
      active := Some(initial);
      registry := seq(maximumWorkers, _ => false);
      epochs := seq(maximumWorkers, _ => Epoch(0, 0, Unregistered, 0));
      version := Version(initial.generation, initial.ruleCount);
      ruleBytes := initial.ruleBytes;
      isSealed := false;
      retired := EMPTY_RECORD;
      terminal := EMPTY_RECORD;
      creditHeld := false;
      retiredBytes := 0;
      lastConverged := 0;
      lastReclaimed := 0;
      reclaimerStarted := false;
      reclaimerActive := false;
    }

    method RegisterWorker(worker: nat, instance: nat) returns (granted: Option<Snapshot>)
      requires Valid()
      modifies this
      ensures Valid()
      ensures granted.Some? <==> old(CanRegister(View(), worker, instance))
      ensures granted.Some? <==>
                worker < |old(registry)| && instance != 0 && !old(registry)[worker] && !old(isSealed) && old(active).Some?
      ensures granted.Some? ==>
                && registry == old(registry)[worker := true]
                && epochs == old(epochs)[worker := Epoch(instance, 0, Starting, old(epochs)[worker].quiesced)]
      ensures granted.Some? ==>
                && granted == old(active)
                && View() == RegisterPublish(RegisterReset(old(View()), worker), worker, instance)
      ensures granted.None? ==> View() == old(View())
    {
      if worker >= |registry| || instance == 0 || registry[worker] || isSealed || active.None? {
        return None;
      }
      granted := active;
      epochs := epochs[worker := epochs[worker].(observed := 0)];
      epochs := epochs[worker := epochs[worker].(registration := Starting)];
      epochs := epochs[worker := epochs[worker].(published := instance)];
      registry := registry[worker := true];
    }

    method MarkWorkerRegistered(worker: nat, instance: nat) returns (ok: bool)
      requires Valid()
      modifies this
      ensures Valid()
      ensures ok <==> old(CanMark(View(), worker, instance))
      ensures ok <==>
                && worker < |old(epochs)| && worker < |registry| && registry[worker] && old(epochs)[worker].published == instance
                && old(epochs)[worker].registration == Starting && old(epochs)[worker].observed >= version.generation
      ensures ok ==> epochs[worker].registration == Registered
      ensures View() == if ok then Mark(old(View()), worker) else old(View())
    {
      if worker >= |registry| || !registry[worker] || epochs[worker].published != instance
         || epochs[worker].registration != Starting {
        return false;
      }
      if epochs[worker].observed < version.generation {
        return false;
      }
      epochs := epochs[worker := epochs[worker].(registration := Registered)];
      ok := true;
    }

    method QuiesceWorker(worker: nat, instance: nat)
      requires Valid()
      modifies this
      ensures Valid()
      ensures View() == Quiesce(old(View()), worker, instance)
      ensures worker < |old(registry)| && old(registry)[worker] && old(epochs)[worker].published == instance ==>
                epochs[worker].quiesced == instance && epochs[worker].registration == Unregistered && !registry[worker]
      ensures forall w :: 0 <= w < |epochs| && w != worker ==> epochs[w] == old(epochs)[w] && registry[w] == old(registry)[w]
    {
      if worker < |registry| && registry[worker] && epochs[worker].published == instance {
        epochs := epochs[worker := epochs[worker].(quiesced := instance)];
        epochs := epochs[worker := epochs[worker].(registration := Unregistered)];
        registry := registry[worker := false];
      }
    }

    /** Runs on the worker's own thread; `next` is its local owner afterwards. */
    method RefreshWorkerSnapshot(local: Option<Snapshot>, worker: nat, instance: nat)
      returns (ok: bool, next: Option<Snapshot>)
      requires Valid() && worker < |epochs|
      modifies this
      ensures Valid()
      ensures ok <==> old(CanRefresh(View(), worker, instance, local))
      ensures ok ==> next == old(active) && View() == Acknowledge(old(View()), worker, next.value)
      ensures !ok ==> next == local && View() == old(View())
      ensures ok <==>
                && old(epochs)[worker].published == instance && old(epochs)[worker].registration != Unregistered
                && active.Some? && local.Some? && old(epochs)[worker].observed <= local.value.generation <= active.value.generation
      ensures ok ==>
                && View() == old(View()).(epochs := epochs)
                && epochs == old(epochs)[worker := old(epochs)[worker].(observed := active.value.generation)]
    {
      next := local;
      if epochs[worker].published != instance || epochs[worker].registration == Unregistered {
        return false, local;
      }
      if active.None? || local.None? {
        return false, local;
      }
      var observed := epochs[worker].observed;
      if local.value.generation > active.value.generation || observed > local.value.generation {
        return false, local;
      }
      if local != active {
        next := active;
      }
      if observed < next.value.generation {
        epochs := epochs[worker := epochs[worker].(observed := next.value.generation)];
      }
      ok := true;
    }

    /** One evaluation of the waiting predicate; false means keep waiting or give up. */
    method TryAcquireRetirementCredit(stopRequested: bool) returns (ok: bool)
      modifies this
      ensures ok <==> !old(creditHeld) && !old(isSealed) && !stopRequested
      ensures View() == old(View()).(creditHeld := old(creditHeld) || ok)
    {
      if creditHeld || isSealed || stopRequested {
        return false;
      }
      creditHeld := true;
      ok := true;
    }

    method ReleaseUncommittedCredit()
      modifies this
      ensures View() == old(View()).(creditHeld := old(creditHeld) && old(retired).pending)
    {
      if !retired.pending {
        creditHeld := false;
      }
    }

    method CollectCohort() returns (cohort: seq<Member>)
      requires Valid()
      ensures cohort == Cohort(View(), |registry|) && Listed(cohort, registry, epochs, |registry|)
    {
      CohortListed(View(), |registry|);
      cohort := [];
      for worker := 0 to |registry|
        invariant cohort == Cohort(View(), worker)
      {
        if registry[worker] {
          var registration := epochs[worker].registration;
          var instance := epochs[worker].published;
          if instance != 0 && (registration == Starting || registration == Registered) {
            cohort := cohort + [Member(worker, instance)];
          }
        }
      }
    }

    method CommitCandidate(candidate: Option<Snapshot>) returns (r: Result<Version, CommitError>)
      requires Valid()
      modifies this
      ensures Valid()
      ensures r.Ok? <==> old(CommitFailure(View(), candidate)).None?
      ensures r.Ok? <==>
                && old(creditHeld) && !old(retired).pending && !old(isSealed) && candidate.Some?
                && candidate.value.generation == old(version).generation + 1 && old(version).generation != MAX_WORD
      ensures r.Ok? ==>
                && r.value.generation == old(version.generation) + 1
                && r.value == version
                && View() == Commit(old(View()), candidate.value)
      ensures r.Err? ==> Some(r.error) == old(CommitFailure(View(), candidate)) && View() == old(View())
    {
      if !creditHeld || retired.pending {
        return Err(NoRetirementCredit);
      }
      if isSealed {
        return Err(PublicationSealed);
      }
      if candidate.None? || candidate.value.generation == 0 {
        return Err(InvalidCandidate);
      }
      if version.generation == MAX_WORD || candidate.value.generation != version.generation + 1 {
        return Err(GenerationMismatch);
      }
      var cohort := CollectCohort();
      var published := Version(candidate.value.generation, candidate.value.ruleCount);
      retired := Record(active, published, candidate.value.ruleBytes, ruleBytes, cohort, true, false, false);
      active := candidate;
      retiredBytes := retired.retiredBytes;
      version := published;
      ruleBytes := retired.publishedBytes;
      r := Ok(published);
    }

    method SealPublication()
      modifies this
      ensures View() == old(View()).(isSealed := true)
    {
      isSealed := true;
    }

    method DetachTerminalSnapshot()
      requires Valid()
      modifies this
      ensures Valid()
      ensures View() == Detach(old(View()))
      ensures old(terminal).pending || old(active).None? ==> View() == old(View())
    {
      if terminal.pending || active.None? {
        return;
      }
      var cohort := CollectCohort();
      var owner := active.value;
      terminal := Record(active, Version(owner.generation, owner.ruleCount), owner.ruleBytes,
                         owner.ruleBytes, cohort, true, false, true);
      active := None;
      retiredBytes := SaturatedAdd(retiredBytes, owner.ruleBytes);
    }

    method IsCohortComplete(record: Record) returns (complete: bool)
      ensures complete == CohortComplete(View(), record)
      ensures complete <==> AllFinished(epochs, record)
    {
      for k := 0 to |record.cohort|
        invariant forall j :: 0 <= j < k ==>
                    MemberComplete(View(), record.cohort[j], record.version.generation, record.terminal)
      {
        var m := record.cohort[k];
        if m.worker >= |epochs| {
          return false;
        }
        var e := epochs[m.worker];
        if e.quiesced < m.instance {
          if record.terminal || e.published != m.instance || e.observed < record.version.generation {
            return false;
          }
        }
      }
      complete := true;
    }

    /** Destruction after the reclaimer thread is proven stopped. */
    method DropRecord(isTerminal: bool)
      requires if isTerminal then terminal.pending else retired.pending
      modifies this
      ensures View() == ReclaimRecord(old(View()), isTerminal)
    {
      var record := if isTerminal then terminal else retired;
      retiredBytes := retiredBytes - Min(retiredBytes, record.retiredBytes);
      if isTerminal {
        terminal := EMPTY_RECORD;
      } else {
        retired := EMPTY_RECORD;
        creditHeld := false;
        lastConverged := Max(lastConverged, record.version.generation);
        lastReclaimed := Max(lastReclaimed, record.version.generation);
      }
    }

    /** The part of one reclaimer iteration that runs before the mutex is
        released: the next pending record, if complete and solely owned, gives
        up its owner. */
    method BeginReclaimIteration(uses: nat) returns (outcome: IterationOutcome, soleOwner: Option<Snapshot>)
      requires Valid()
      modifies this
      ensures Valid()
      ensures outcome == old(NextIteration(View(), uses))
      ensures outcome.NothingPending? <==> !old(retired).pending && !old(terminal).pending
      ensures outcome.Destroy? ==> outcome.terminal == !old(retired).pending
      ensures outcome.Wait? <==>
                var record := if old(retired).pending then old(retired) else old(terminal);
                record.pending && !AllFinished(old(epochs), record)
      ensures outcome == Destroy(false) ==> lastConverged == Max(old(lastConverged), retired.version.generation) && retired.owner.None?
      ensures outcome.Destroy? ==>
                && soleOwner == old(NextRecord(View())).owner
                && View() == BeginReclaim(old(View()), outcome.terminal)
      ensures !outcome.Destroy? ==> soleOwner == None && View() == old(View())
    {
      soleOwner := None;
      if !retired.pending && !terminal.pending {
        return NothingPending, None;
      }
      var isTerminal := !retired.pending;
      var record := if isTerminal then terminal else retired;
      var complete := IsCohortComplete(record);
      if !complete {
        return Wait, None;
      }
      if record.owner.Some? && uses != 1 {
        return Fatal, None;
      }
      soleOwner := record.owner;
      if isTerminal {
        terminal := terminal.(destroying := true, owner := None);
      } else {
        retired := retired.(destroying := true, owner := None);
        lastConverged := Max(lastConverged, record.version.generation);
      }
      outcome := Destroy(isTerminal);
    }

    /** The rest of the iteration, after the destructor ran. */
    method EndReclaimIteration(isTerminal: bool)
      requires if isTerminal then terminal.pending else retired.pending
      modifies this
      ensures View() == EndReclaim(old(View()), isTerminal)
    {
      var record := if isTerminal then terminal else retired;
      retiredBytes := retiredBytes - Min(retiredBytes, record.retiredBytes);
      if isTerminal {
        terminal := EMPTY_RECORD;
      } else {
        retired := EMPTY_RECORD;
        creditHeld := false;
        lastReclaimed := Max(lastReclaimed, record.version.generation);
      }
    }

    method EmergencyReclaimConverged(retiredUses: nat, terminalUses: nat) returns (ok: bool)
      requires Valid()
      modifies this
      ensures Valid()
      ensures ok <==> old(CanReclaimConverged(View(), retiredUses, terminalUses))
      ensures ok <==>
                && !old(reclaimerActive) && old(isSealed)
                && (old(retired).pending ==> AllFinished(old(epochs), old(retired)))
                && (old(terminal).pending ==> AllFinished(old(epochs), old(terminal)))
                && (old(retired).owner.Some? ==> retiredUses == 1) && (old(terminal).owner.Some? ==> terminalUses == 1)
      ensures View() == if ok then ReclaimConverged(old(View())) else old(View())
    {
      if reclaimerActive || !isSealed {
        return false;
      }
      if retired.pending {
        var complete := IsCohortComplete(retired);
        if !complete {
          return false;
        }
      }
      if terminal.pending {
        var complete := IsCohortComplete(terminal);
        if !complete {
          return false;
        }
      }
      if (retired.owner.Some? && retiredUses != 1) || (terminal.owner.Some? && terminalUses != 1) {
        return false;
      }
      if retired.pending {
        DropRecord(false);
      }
      if terminal.pending {
        DropRecord(true);
      }
      ok := true;
    }
  }

  function InitialShared(initial: Snapshot, maximumWorkers: nat): Shared {
    Shared(Some(initial), seq(maximumWorkers, _ => false),
           seq(maximumWorkers, _ => Epoch(0, 0, Unregistered, 0)),
           Version(initial.generation, initial.ruleCount), initial.ruleBytes, false,
           EMPTY_RECORD, EMPTY_RECORD, false, 0, 0, 0, false, false)
  }
}
