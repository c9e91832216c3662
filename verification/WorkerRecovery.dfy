/**
 * Replacement of failed workers: a budget per episode, capped exponential
 * backoff and a stability window. The critical sections of the supervisor are
 * functions of a worker's record; runs are stated over them, and the object
 * executes them.
 */
module WorkerRecovery {
  import opened Basics
  import opened Words

  datatype Policy = FailService | Restart

  /** Durations are in milliseconds. */
  datatype RecoveryConfig = RecoveryConfig(policy: Policy, maxAttempts: nat, initialBackoff: int, maxBackoff: int, stabilityWindow: int)

  predicate ValidRecovery(c: RecoveryConfig) {
    c.policy == FailService
    || (c.maxAttempts != 0 && c.initialBackoff >= 0 && c.maxBackoff >= c.initialBackoff && c.stabilityWindow >= 0)
  }

  // ------------------------------------------------------- time

  /** Points in time are in nanoseconds of a signed 64-bit clock. */
  const LAST_INSTANT: int := 0x7FFF_FFFF_FFFF_FFFF
  const NANOS: int := 1_000_000

  type Instant = t: int | t <= LAST_INSTANT

  /** The delay after `now`, cut at the end of the clock. */
  function DeadlineAfter(now: Instant, delay: int): (r: Instant)
    ensures delay >= 0 ==> r == now + delay * NANOS || (r == LAST_INSTANT && now + delay * NANOS > LAST_INSTANT - NANOS)
  {
    var remaining := (LAST_INSTANT - now) / NANOS;
    if delay >= remaining then LAST_INSTANT else now + delay * NANOS
  }

  function DoubledBackoff(current: int, maximum: int): int {
    if current >= maximum - current then maximum else current + current
  }

  /** The k-th delay of an episode. */
  function Delay(c: RecoveryConfig, k: nat): int {
    Min(c.initialBackoff * Pow2(k), c.maxBackoff)
  }

  /** Doubling with the cap walks through the delays. */
  lemma DelayDoubles(c: RecoveryConfig, k: nat)
    requires 0 <= c.initialBackoff <= c.maxBackoff
    ensures DoubledBackoff(Delay(c, k), c.maxBackoff) == Delay(c, k + 1)
    ensures 0 <= Delay(c, k) <= c.maxBackoff && Delay(c, 0) == c.initialBackoff
  {
    var p := c.initialBackoff * Pow2(k);
    Product(c.initialBackoff, Pow2(k));
    assert c.initialBackoff * Pow2(k + 1) == 2 * p;
  }

  lemma Product(a: int, b: nat)
    requires a >= 0
    ensures a * b >= 0 && a * (2 * b) == 2 * (a * b)
  {
  }

  // ------------------------------------------------------- history

  /** What happens to a worker, in order; the history is never cut. */
  datatype Event =
    | Charged
    | Created(instance: nat, at: Instant, replacement: bool)
    | Left(instance: nat)
    | Delayed(delay: int, until: Instant)
    | Ran(instance: nat, since: Instant)
    | Stable(instance: nat, since: Instant, until: Instant)

  type History = seq<Event>

  /** Attempts charged since the budget was last reset. */
  function Attempts(log: History): nat {
    if log == [] then 0
    else
      var front, last := log[..|log| - 1], log[|log| - 1];
      if last.Stable? then 0 else Attempts(front) + One(last.Charged?)
  }

  /** Replacements created since the budget was last reset. */
  function Replacements(log: History): nat {
    if log == [] then 0
    else
      var front, last := log[..|log| - 1], log[|log| - 1];
      if last.Stable? then 0 else Replacements(front) + One(last.Created? && last.replacement)
  }

  /** Delays taken since the budget was last reset. */
  function Delays(log: History): nat {
    if log == [] then 0
    else
      var front, last := log[..|log| - 1], log[|log| - 1];
      if last.Stable? then 0 else Delays(front) + One(last.Delayed?)
  }

  /** The instance that was created and has not left. */
  function Alive(log: History): Option<nat> {
    if log == [] then None
    else
      var front, last := log[..|log| - 1], log[|log| - 1];
      if last.Created? then Some(last.instance)
      else if last.Left? && Alive(front) == Some(last.instance) then None
      else Alive(front)
  }

  /** Since when the instance that was created last has been running. */
  function RunningSince(log: History): Option<Instant> {
    if log == [] then None
    else
      var front, last := log[..|log| - 1], log[|log| - 1];
      if last.Ran? then Some(last.since) else if last.Created? then None else RunningSince(front)
  }

  /** When the last delay is over. */
  function LastUntil(log: History): Option<Instant> {
    if log == [] then None
    else
      var front, last := log[..|log| - 1], log[|log| - 1];
      if last.Delayed? then Some(last.until) else LastUntil(front)
  }

  /** What makes an event legitimate after the events before it. */
  predicate EventOk(c: RecoveryConfig, front: History, e: Event) {
    match e
    case Charged => c.policy == Restart && Attempts(front) < c.maxAttempts
    case Created(instance, at, replacement) =>
      && Alive(front).None? && (LastUntil(front).Some? ==> at >= LastUntil(front).value)
      && (replacement ==> Replacements(front) < Attempts(front))
    case Left(instance) => true
    case Delayed(delay, until) => delay == Delay(c, Delays(front)) && Delays(front) < c.maxAttempts
    case Ran(instance, since) => Alive(front) == Some(instance)
    case Stable(instance, since, until) =>
      && Alive(front) == Some(instance) && RunningSince(front) == Some(since)
      && (c.policy == Restart ==> until >= DeadlineAfter(since, c.stabilityWindow))
  }

  predicate HistoryOk(c: RecoveryConfig, log: History) {
    log == [] || (HistoryOk(c, log[..|log| - 1]) && EventOk(c, log[..|log| - 1], log[|log| - 1]))
  }

  lemma Logged(c: RecoveryConfig, log: History, e: Event)
    ensures HistoryOk(c, log + [e]) <==> HistoryOk(c, log) && EventOk(c, log, e)
    ensures Attempts(log + [e]) == if e.Stable? then 0 else Attempts(log) + One(e.Charged?)
    ensures Replacements(log + [e]) == if e.Stable? then 0 else Replacements(log) + One(e.Created? && e.replacement)
    ensures Delays(log + [e]) == if e.Stable? then 0 else Delays(log) + One(e.Delayed?)
    ensures Alive(log + [e]) == if e.Created? then Some(e.instance)
                                else if e.Left? && Alive(log) == Some(e.instance) then None else Alive(log)
    ensures LastUntil(log + [e]) == if e.Delayed? then Some(e.until) else LastUntil(log)
    ensures RunningSince(log + [e]) == if e.Ran? then Some(e.since) else if e.Created? then None else RunningSince(log)
  {
    assert (log + [e])[..|log|] == log;
  }

  // ------------------------------------------------------- the record of one worker

  datatype RecordState = Offline | Creating | Starting | Ready | Running | Stopping | Exited | Joined | Backoff

  datatype FailureCode = UnexpectedStop | FatalExit | CreateFailed | ThreadStartFailed | InitFailed | InstanceIdExhausted | JoinFailed

  /** What follows a failure. */
  datatype Verdict = Recovering | StopRequested | ServiceFails(code: FailureCode, budgetExhausted: bool)

  datatype Creation = Cancelled | NotCreated(code: FailureCode) | IsCreated

  /** `since` is when the current instance started to run, `over` says that the supervisor has returned. */
  datatype Record = Record(
    state: RecordState,
    instanceId: nat,
    episode: bool,
    attempts: nat,
    nextBackoff: int,
    restartAt: Instant,
    stableAt: Instant,
    readyReport: Option<bool>,
    activated: bool,
    completedAt: Option<Instant>,
    hasInstance: bool,
    joinable: bool,
    registered: bool,
    over: bool,
    since: Instant,
    log: History)

  function InitialRecord(c: RecoveryConfig): Record {
    Record(Offline, 0, false, 0, c.initialBackoff, 0, 0, None, false, None, false, false, false, false, 0, [])
  }

  predicate Gone(r: Record) {
    !r.hasInstance && !r.joinable && !r.registered
  }

  predicate IsLive(r: Record) {
    r.state in {Starting, Ready, Running}
  }

  // ------------------------------------------------------- critical sections

  function TakeReady(r: Record, instance: nat, ok: bool): Record {
    if instance != r.instanceId || r.readyReport.Some? then r else r.(readyReport := Some(ok))
  }

  function TakeActivated(r: Record, instance: nat): Record {
    if instance != r.instanceId then r else r.(activated := true)
  }

  function TakeCompletion(r: Record, instance: nat, now: Instant): Record {
    if instance != r.instanceId || r.completedAt.Some? then r else r.(completedAt := Some(now))
  }

  /** A worker that reported ready may be activated, unless it has completed or is not registered yet. */
  function Accepted(r: Record, marked: bool): Record {
    if r.completedAt.Some? || !marked then r else r.(state := Ready)
  }

  /** The data plane opens for an activated worker that has not completed. */
  function Promoted(c: RecoveryConfig, r: Record, now: Instant): Record {
    if r.completedAt.Some? then r
    else r.(state := Running, stableAt := DeadlineAfter(now, c.stabilityWindow), since := now, log := r.log + [Ran(r.instanceId, now)])
  }

  /** A worker that is still running at its stability deadline ends the episode. */
  function Settled(c: RecoveryConfig, r: Record, now: Instant): Record {
    if r.completedAt.None? && r.episode && now >= r.stableAt then
      r.(episode := false, attempts := 0, nextBackoff := c.initialBackoff, log := r.log + [Stable(r.instanceId, r.since, now)])
    else r
  }

  /** The worker completed at or after its stability deadline, whenever that is noticed. */
  predicate Outlived(r: Record) {
    r.state == Running && r.episode && r.completedAt.Some? && r.completedAt.value >= r.stableAt
  }

  /** A failure continues the episode, or opens one once the data plane is released. */
  function Opened(c: RecoveryConfig, r: Record, released: bool): Record {
    var s := if Outlived(r) then r.(episode := false, attempts := 0, log := r.log + [Stable(r.instanceId, r.since, r.completedAt.value)]) else r;
    if s.episode then s else s.(episode := released, nextBackoff := c.initialBackoff)
  }

  /** The thread is joined, the instance dropped and then its registration. */
  function Quit(r: Record): Record {
    r.(state := Offline, joinable := false, hasInstance := false, registered := false, log := r.log + [Left(r.instanceId)])
  }

  function BackedOff(c: RecoveryConfig, r: Record, now: Instant): Record {
    var until := DeadlineAfter(now, r.nextBackoff);
    r.(state := Backoff, restartAt := until, nextBackoff := DoubledBackoff(r.nextBackoff, c.maxBackoff),
       log := r.log + [Delayed(r.nextBackoff, until)])
  }

  predicate Restartable(c: RecoveryConfig, r: Record, code: FailureCode, released: bool) {
    released && r.episode && c.policy == Restart && code != InstanceIdExhausted
  }

  /** The verdict on a failure of a worker that was joined, unless a stop ended the supervisor. */
  function Judged(c: RecoveryConfig, r: Record, code: FailureCode, released: bool): Verdict {
    if Restartable(c, r, code, released) then
      if r.attempts < c.maxAttempts then Recovering else ServiceFails(code, true)
    else ServiceFails(code, false)
  }

  /** What the environment answers while a failure is handled. */
  datatype Handling = Handling(now: Instant, released: bool, stopBefore: bool, joins: bool, stopAfter: bool)

  function FailureVerdict(c: RecoveryConfig, r: Record, code: FailureCode, h: Handling): Verdict {
    if h.stopBefore then StopRequested else ReplacementVerdict(c, Opened(c, r, h.released), code, h)
  }

  function AfterFailure(c: RecoveryConfig, r: Record, code: FailureCode, h: Handling): Record {
    if h.stopBefore then r.(over := true) else Removed(c, Opened(c, r, h.released), code, h)
  }

  /** The part of handling a failure that takes the instance away. */
  function ReplacementVerdict(c: RecoveryConfig, r: Record, code: FailureCode, h: Handling): Verdict {
    if r.joinable && !h.joins then ServiceFails(JoinFailed, false)
    else if h.stopAfter then StopRequested
    else Judged(c, Quit(r), code, h.released)
  }

  function Removed(c: RecoveryConfig, r: Record, code: FailureCode, h: Handling): Record {
    if r.joinable && !h.joins then r.(state := if r.completedAt.Some? then Exited else Stopping, over := true)
    else if h.stopAfter || Judged(c, Quit(r), code, h.released) != Recovering then Quit(r).(over := true)
    else BackedOff(c, Quit(r), h.now)
  }

  function CreationOf(r: Record, stop: bool, registers: bool, creates: bool): Creation {
    if stop then Cancelled
    else if r.instanceId == MAX_WORD then NotCreated(InstanceIdExhausted)
    else if !registers || !creates then NotCreated(CreateFailed)
    else IsCreated
  }

  /** An attempt of an episode is charged even when it fails. */
  function AfterCreation(r: Record, now: Instant, stop: bool, registers: bool, creates: bool): Record {
    if stop then r
    else
      var charged := if r.episode then r.(attempts := r.attempts + 1, log := r.log + [Charged]) else r;
      if r.instanceId == MAX_WORD then charged
      else
        charged.(instanceId := r.instanceId + 1, state := if registers && creates then Starting else Creating,
                 readyReport := None, activated := false, completedAt := None,
                 registered := registers, hasInstance := registers && creates,
                 log := charged.log + [Created(r.instanceId + 1, now, r.episode)])
  }

  /** What the environment answers while an instance is created. */
  datatype Making = Making(now: Instant, stop: bool, registers: bool, creates: bool, starts: bool)

  /** The first instance, at start-up: any failure ends the supervisor. */
  function Launched(r: Record, m: Making): Record {
    var made := AfterCreation(r, m.now, m.stop, m.registers, m.creates);
    if CreationOf(r, m.stop, m.registers, m.creates) == IsCreated && m.starts then made.(joinable := true) else made.(over := true)
  }

  /** A look at a record in backoff: the replacement is created once the delay is over. */
  function Replaced(c: RecoveryConfig, r: Record, m: Making, h: Handling): Record {
    if m.now < r.restartAt then r
    else
      var made := AfterCreation(r, m.now, m.stop, m.registers, m.creates);
      match CreationOf(r, m.stop, m.registers, m.creates)
      case Cancelled => made.(over := true)
      case NotCreated(code) => AfterFailure(c, made, code, h)
      case IsCreated => if m.starts then made.(joinable := true) else AfterFailure(c, made, ThreadStartFailed, h)
  }

  /** The failure that a creation ends in, if any. */
  function CreationFailure(r: Record, m: Making): Option<FailureCode> {
    match CreationOf(r, m.stop, m.registers, m.creates)
    case Cancelled => None
    case NotCreated(code) => Some(code)
    case IsCreated => if m.starts then None else Some(ThreadStartFailed)
  }

  /** What a look at a record in backoff ends in; nothing when it goes on. */
  function ReplaceVerdict(c: RecoveryConfig, r: Record, m: Making, h: Handling): Option<Verdict> {
    if m.now < r.restartAt then None
    else if m.stop then Some(StopRequested)
    else
      match CreationFailure(r, m)
      case None => None
      case Some(code) => Some(FailureVerdict(c, AfterCreation(r, m.now, m.stop, m.registers, m.creates), code, h))
  }

  // ------------------------------------------------------- steps

  datatype Action =
    | ReportReady(instance: nat, ok: bool)
    | ReportActivated(instance: nat)
    | ReportCompletion(instance: nat, at: Instant)
    | AcceptReady(marked: bool)
    | Promote(now: Instant)
    | CheckStability(now: Instant)
    | Fail(code: FailureCode, handling: Handling)
    | Launch(making: Making)
    | Replace(making: Making, handling: Handling)

  predicate Enabled(r: Record, a: Action) {
    && !r.over
    && match a
       case ReportReady(_, _) => true
       case ReportActivated(_) => true
       case ReportCompletion(_, _) => true
       case AcceptReady(_) => r.state == Starting && r.readyReport == Some(true)
       case Promote(_) => r.state == Ready && r.activated
       case CheckStability(_) => r.state == Running
       case Fail(_, _) => IsLive(r) && (r.completedAt.Some? || r.readyReport == Some(false))
       case Launch(_) => r.state == Offline && r.instanceId == 0
       case Replace(_, _) => r.state == Backoff
  }

  function Apply(c: RecoveryConfig, r: Record, a: Action): Record {
    match a
    case ReportReady(instance, ok) => TakeReady(r, instance, ok)
    case ReportActivated(instance) => TakeActivated(r, instance)
    case ReportCompletion(instance, at) => TakeCompletion(r, instance, at)
    case AcceptReady(marked) => Accepted(r, marked)
    case Promote(now) => Promoted(c, r, now)
    case CheckStability(now) => Settled(c, r, now)
    case Fail(code, h) => AfterFailure(c, r, code, h)
    case Launch(m) => Launched(r, m)
    case Replace(m, h) => Replaced(c, r, m, h)
  }

  // ------------------------------------------------------- invariant

  /** The record agrees with its history; `open` delays have not been followed by an attempt yet. */
  predicate Counted(c: RecoveryConfig, r: Record, open: nat) {
    && r.attempts == Attempts(r.log) && Delays(r.log) == r.attempts + open && Replacements(r.log) <= r.attempts
    && (!r.episode ==> r.attempts == 0 && open == 0)
    && (c.policy == FailService ==> r.attempts == 0 && open == 0)
    && (c.policy == Restart ==> r.attempts + open <= c.maxAttempts)
    && (c.policy == Restart && r.episode ==> r.nextBackoff == Delay(c, r.attempts + open))
    && (r.state == Running ==> r.stableAt == DeadlineAfter(r.since, c.stabilityWindow) && RunningSince(r.log) == Some(r.since))
    && (r.state in {Starting, Ready} ==> RunningSince(r.log).None?)
  }

  /** Only the instance that was created last can have left anything behind. */
  predicate Placed(r: Record) {
    && (Alive(r.log).Some? ==> Alive(r.log) == Some(r.instanceId))
    && (!Gone(r) || IsLive(r) ==> Alive(r.log).Some?)
    && (r.instanceId == 0 ==> r.state == Offline && LastUntil(r.log).None?)
  }

  predicate Waiting(r: Record) {
    && (r.state in {Offline, Backoff} ==> Gone(r) && Alive(r.log).None?)
    && (r.state == Backoff ==> r.episode && LastUntil(r.log) == Some(r.restartAt))
    && (r.state == Offline ==> r.instanceId == 0 && !r.episode && r.log == [])
  }

  predicate Inv(c: RecoveryConfig, r: Record) {
    && ValidRecovery(c) && HistoryOk(c, r.log)
    && (!r.over ==> Counted(c, r, One(r.state == Backoff)) && Placed(r) && Waiting(r))
  }

  lemma OpenedKeeps(c: RecoveryConfig, r: Record, released: bool, s: Record)
    requires ValidRecovery(c) && HistoryOk(c, r.log) && Counted(c, r, 0) && Placed(r) && s == Opened(c, r, released)
    ensures HistoryOk(c, s.log) && Counted(c, s, 0) && Placed(s)
  {
    if Outlived(r) {
      Logged(c, r.log, Stable(r.instanceId, r.since, r.completedAt.value));
    }
    if c.policy == Restart {
      DelayDoubles(c, 0);
    }
  }

  lemma QuitKeeps(c: RecoveryConfig, r: Record, s: Record)
    requires HistoryOk(c, r.log) && Counted(c, r, 0) && Placed(r) && s == Quit(r)
    ensures HistoryOk(c, s.log) && Counted(c, s, 0) && Placed(s) && Gone(s) && Alive(s.log).None?
  {
    Logged(c, r.log, Left(r.instanceId));
  }

  lemma BackedOffKeeps(c: RecoveryConfig, r: Record, now: Instant, s: Record)
    requires ValidRecovery(c) && HistoryOk(c, r.log) && Counted(c, r, 0) && Placed(r) && Gone(r) && Alive(r.log).None?
    requires r.episode && c.policy == Restart && r.attempts < c.maxAttempts && r.instanceId > 0 && s == BackedOff(c, r, now)
    ensures HistoryOk(c, s.log) && Counted(c, s, 1) && Placed(s) && Waiting(s)
  {
    Logged(c, r.log, Delayed(r.nextBackoff, DeadlineAfter(now, r.nextBackoff)));
    DelayDoubles(c, r.attempts);
  }

  lemma RemovedKeeps(c: RecoveryConfig, r: Record, code: FailureCode, h: Handling, s: Record)
    requires ValidRecovery(c) && HistoryOk(c, r.log) && Counted(c, r, 0) && Placed(r) && r.instanceId > 0 && !r.over
    requires s == Removed(c, r, code, h)
    ensures Inv(c, s)
  {
    var quit := Quit(r);
    QuitKeeps(c, r, quit);
    if !s.over {
      BackedOffKeeps(c, quit, h.now, s);
    }
  }

  lemma FailureKeeps(c: RecoveryConfig, r: Record, code: FailureCode, h: Handling, s: Record)
    requires ValidRecovery(c) && HistoryOk(c, r.log) && Counted(c, r, 0) && Placed(r) && r.instanceId > 0 && !r.over
    requires s == AfterFailure(c, r, code, h)
    ensures Inv(c, s)
  {
    if !h.stopBefore {
      var begun := Opened(c, r, h.released);
      OpenedKeeps(c, r, h.released, begun);
      RemovedKeeps(c, begun, code, h, s);
    }
  }

  /** The record once its attempt is charged: ready for a new instance. */
  predicate Chargeable(c: RecoveryConfig, r: Record, now: Instant) {
    && HistoryOk(c, r.log) && Counted(c, r, 0) && Placed(r) && Gone(r) && Alive(r.log).None?
    && (LastUntil(r.log).Some? ==> now >= LastUntil(r.log).value)
    && (r.episode ==> Replacements(r.log) < Attempts(r.log))
  }

  lemma ChargeKeeps(c: RecoveryConfig, r: Record, now: Instant, s: Record)
    requires Inv(c, r) && !r.over && r.state in {Offline, Backoff} && (r.state == Backoff ==> now >= r.restartAt)
    requires s == if r.episode then r.(attempts := r.attempts + 1, log := r.log + [Charged]) else r
    ensures Chargeable(c, s, now)
  {
    Logged(c, r.log, Charged);
  }

  lemma NewInstanceKeeps(c: RecoveryConfig, r: Record, now: Instant, registers: bool, creates: bool, s: Record)
    requires Chargeable(c, r, now)
    requires s == r.(instanceId := r.instanceId + 1, state := if registers && creates then Starting else Creating,
                     readyReport := None, activated := false, completedAt := None,
                     registered := registers, hasInstance := registers && creates,
                     log := r.log + [Created(r.instanceId + 1, now, r.episode)])
    ensures HistoryOk(c, s.log) && Counted(c, s, 0) && Placed(s)
  {
    Logged(c, r.log, Created(r.instanceId + 1, now, r.episode));
  }

  lemma CreationKeeps(c: RecoveryConfig, r: Record, now: Instant, registers: bool, creates: bool, s: Record)
    requires Inv(c, r) && !r.over && r.state in {Offline, Backoff} && (r.state == Backoff ==> now >= r.restartAt)
    requires s == AfterCreation(r, now, false, registers, creates)
    ensures HistoryOk(c, s.log) && Counted(c, s, 0) && Placed(s) && !s.joinable
    ensures CreationOf(r, false, registers, creates) == IsCreated ==> s.state == Starting && s.instanceId > 0
    ensures r.state == Backoff ==> s.instanceId > 0
  {
    var charged := if r.episode then r.(attempts := r.attempts + 1, log := r.log + [Charged]) else r;
    ChargeKeeps(c, r, now, charged);
    if r.instanceId != MAX_WORD {
      NewInstanceKeeps(c, charged, now, registers, creates, s);
    }
  }

  lemma LaunchKeeps(c: RecoveryConfig, r: Record, m: Making, s: Record)
    requires Inv(c, r) && !r.over && r.state == Offline && s == Launched(r, m)
    ensures Inv(c, s)
  {
    if !m.stop {
      CreationKeeps(c, r, m.now, m.registers, m.creates, AfterCreation(r, m.now, false, m.registers, m.creates));
    }
  }

  lemma ReplaceKeeps(c: RecoveryConfig, r: Record, m: Making, h: Handling, s: Record)
    requires Inv(c, r) && !r.over && r.state == Backoff && s == Replaced(c, r, m, h)
    ensures Inv(c, s)
  {
    if m.now >= r.restartAt && !m.stop {
      var made := AfterCreation(r, m.now, false, m.registers, m.creates);
      CreationKeeps(c, r, m.now, m.registers, m.creates, made);
      match CreationOf(r, false, m.registers, m.creates)
      case NotCreated(code) => FailureKeeps(c, made, code, h, AfterFailure(c, made, code, h));
      case _ =>
        if !m.starts {
          FailureKeeps(c, made, ThreadStartFailed, h, AfterFailure(c, made, ThreadStartFailed, h));
        }
    }
  }

  lemma SettledKeeps(c: RecoveryConfig, r: Record, now: Instant, s: Record)
    requires Inv(c, r) && !r.over && r.state == Running && s == Settled(c, r, now)
    ensures Inv(c, s)
  {
    Logged(c, r.log, Stable(r.instanceId, r.since, now));
  }

  lemma ReportKeeps(c: RecoveryConfig, r: Record, a: Action, s: Record)
    requires Inv(c, r) && Enabled(r, a) && s == Apply(c, r, a)
    requires a.ReportReady? || a.ReportActivated? || a.ReportCompletion? || a.AcceptReady?
    ensures Inv(c, s)
  {
  }

  lemma PromotedKeeps(c: RecoveryConfig, r: Record, now: Instant, s: Record)
    requires Inv(c, r) && !r.over && r.state == Ready && s == Promoted(c, r, now)
    ensures Inv(c, s)
  {
    Logged(c, r.log, Ran(r.instanceId, now));
  }

  lemma StepKeepsInv(c: RecoveryConfig, r: Record, a: Action, s: Record)
    requires Inv(c, r) && Enabled(r, a) && s == Apply(c, r, a)
    ensures Inv(c, s)
  {
    match a
    case Promote(now) => PromotedKeeps(c, r, now, s);
    case CheckStability(now) => SettledKeeps(c, r, now, s);
    case Fail(code, h) => FailureKeeps(c, r, code, h, s);
    case Launch(m) => LaunchKeeps(c, r, m, s);
    case Replace(m, h) => ReplaceKeeps(c, r, m, h, s);
    case ReportReady(_, _) => ReportKeeps(c, r, a, s);
    case ReportActivated(_) => ReportKeeps(c, r, a, s);
    case ReportCompletion(_, _) => ReportKeeps(c, r, a, s);
    case AcceptReady(_) => ReportKeeps(c, r, a, s);
  }

  // ------------------------------------------------------- whole runs

  ghost predicate IsRun(c: RecoveryConfig, records: seq<Record>, actions: seq<Action>) {
    && ValidRecovery(c) && |records| == |actions| + 1 && records[0] == InitialRecord(c)
    && forall k {:trigger actions[k]} :: 0 <= k < |actions| ==>
         Enabled(records[k], actions[k]) && records[k + 1] == Apply(c, records[k], actions[k])
  }

  lemma {:induction false} InvAlways(c: RecoveryConfig, records: seq<Record>, actions: seq<Action>, k: nat)
    requires IsRun(c, records, actions) && k < |records|
    ensures Inv(c, records[k])
  {
    if k > 0 {
      InvAlways(c, records, actions, k - 1);
      StepKeepsInv(c, records[k - 1], actions[k - 1], records[k]);
    }
  }

  lemma RemovedExtends(c: RecoveryConfig, r: Record, code: FailureCode, h: Handling, s: Record)
    requires s == Removed(c, r, code, h)
    ensures r.log <= s.log
  {
  }

  lemma FailureExtends(c: RecoveryConfig, r: Record, code: FailureCode, h: Handling, s: Record)
    requires s == AfterFailure(c, r, code, h)
    ensures r.log <= s.log
  {
    if !h.stopBefore {
      RemovedExtends(c, Opened(c, r, h.released), code, h, s);
    }
  }

  lemma CreationExtends(r: Record, now: Instant, stop: bool, registers: bool, creates: bool, s: Record)
    requires s == AfterCreation(r, now, stop, registers, creates)
    ensures r.log <= s.log
  {
  }

  lemma ReplaceExtends(c: RecoveryConfig, r: Record, m: Making, h: Handling, s: Record)
    requires s == Replaced(c, r, m, h)
    ensures r.log <= s.log
  {
    if m.now >= r.restartAt {
      var made := AfterCreation(r, m.now, m.stop, m.registers, m.creates);
      CreationExtends(r, m.now, m.stop, m.registers, m.creates, made);
      match CreationOf(r, m.stop, m.registers, m.creates)
      case Cancelled =>
      case NotCreated(code) => FailureExtends(c, made, code, h, AfterFailure(c, made, code, h));
      case IsCreated => FailureExtends(c, made, ThreadStartFailed, h, AfterFailure(c, made, ThreadStartFailed, h));
    }
  }

  lemma StepExtends(c: RecoveryConfig, r: Record, a: Action, s: Record)
    requires s == Apply(c, r, a)
    ensures r.log <= s.log
  {
    match a
    case Fail(code, h) => FailureExtends(c, r, code, h, s);
    case Launch(m) => CreationExtends(r, m.now, m.stop, m.registers, m.creates, AfterCreation(r, m.now, m.stop, m.registers, m.creates));
    case Replace(m, h) => ReplaceExtends(c, r, m, h, s);
    case _ =>
  }

  lemma ExtendsAt(c: RecoveryConfig, records: seq<Record>, actions: seq<Action>, k: nat)
    requires IsRun(c, records, actions) && k < |actions|
    ensures records[k].log <= records[k + 1].log
  {
    StepExtends(c, records[k], actions[k], records[k + 1]);
  }

  lemma {:induction false} Nested(logs: seq<History>, k: nat, l: nat)
    requires k <= l < |logs| && forall i :: 0 <= i < |logs| - 1 ==> logs[i] <= logs[i + 1]
    ensures logs[k] <= logs[l]
    decreases l
  {
    if k < l {
      Nested(logs, k, l - 1);
      assert logs[l - 1] <= logs[l - 1 + 1];
    }
  }

  /** The history is never cut: what was logged stays in every later state. */
  lemma HistoryGrows(c: RecoveryConfig, records: seq<Record>, actions: seq<Action>, k: nat, l: nat)
    requires IsRun(c, records, actions) && k <= l < |records|
    ensures records[k].log <= records[l].log
  {
    var logs := seq(|records|, i requires 0 <= i < |records| => records[i].log);
    forall i | 0 <= i < |logs| - 1 ensures logs[i] <= logs[i + 1] {
      ExtendsAt(c, records, actions, i);
    }
    Nested(logs, k, l);
  }

  lemma {:induction false} HistoryPrefix(c: RecoveryConfig, log: History, j: nat)
    requires HistoryOk(c, log) && j <= |log|
    ensures HistoryOk(c, log[..j]) && (j < |log| ==> EventOk(c, log[..j], log[j]))
    decreases |log|
  {
    if j < |log| {
      var front := log[..|log| - 1];
      if j < |front| {
        HistoryPrefix(c, front, j);
      }
      assert front[..j] == log[..j];
    } else {
      assert log[..j] == log;
    }
  }

  lemma {:induction false} BudgetOfPrefix(c: RecoveryConfig, log: History)
    requires HistoryOk(c, log)
    ensures Replacements(log) <= Attempts(log)
    ensures if c.policy == Restart then Attempts(log) <= c.maxAttempts else Attempts(log) == 0
  {
    if log != [] {
      BudgetOfPrefix(c, log[..|log| - 1]);
    }
  }

  /** Replacements among some events. */
  function Made(events: History): nat {
    if events == [] then 0
    else Made(events[..|events| - 1]) + One(events[|events| - 1].Created? && events[|events| - 1].replacement)
  }

  lemma {:induction false} WindowWithinReset(log: History, i: nat, j: nat)
    requires i <= j <= |log| && forall p :: i <= p < j ==> !log[p].Stable?
    ensures Made(log[i..j]) <= Replacements(log[..j])
    decreases j
  {
    if i < j {
      WindowWithinReset(log, i, j - 1);
      assert log[i..j][..j - i - 1] == log[i..j - 1] && log[..j][..j - 1] == log[..j - 1];
    }
  }

  /**
   * The budget: in any stretch of a worker's history without a reset, at most
   * the configured number of replacements is created, and none at all when the
   * policy is to fail the service.
   */
  lemma BudgetPerEpisode(c: RecoveryConfig, records: seq<Record>, actions: seq<Action>, k: nat, i: nat, j: nat)
    requires IsRun(c, records, actions) && k < |records| && i <= j <= |records[k].log|
    requires forall p :: i <= p < j ==> !records[k].log[p].Stable?
    ensures Made(records[k].log[i..j]) <= if c.policy == Restart then c.maxAttempts else 0
  {
    InvAlways(c, records, actions, k);
    var log := records[k].log;
    HistoryPrefix(c, log, j);
    BudgetOfPrefix(c, log[..j]);
    WindowWithinReset(log, i, j);
  }

  /** The k-th delay after a reset is min(initial * 2^k, maximum), counting from zero. */
  lemma DelaysPerEpisode(c: RecoveryConfig, records: seq<Record>, actions: seq<Action>, k: nat, p: nat)
    requires IsRun(c, records, actions) && k < |records| && p < |records[k].log| && records[k].log[p].Delayed?
    ensures records[k].log[p].delay == Min(c.initialBackoff * Pow2(Delays(records[k].log[..p])), c.maxBackoff)
    ensures Delays(records[k].log[..p]) < c.maxAttempts
  {
    InvAlways(c, records, actions, k);
    HistoryPrefix(c, records[k].log, p);
  }

  /** Where the instance that is alive was created, and where it began to run. */
  lemma {:induction false} CreatedAndRan(c: RecoveryConfig, log: History) returns (created: nat, ran: nat)
    requires HistoryOk(c, log) && Alive(log).Some? && RunningSince(log).Some?
    ensures created < ran < |log| && log[created].Created? && log[created].instance == Alive(log).value
    ensures log[ran] == Ran(Alive(log).value, RunningSince(log).value)
    ensures forall i :: created < i < |log| ==> !log[i].Created? && log[i] != Left(Alive(log).value)
  {
    var front, last := log[..|log| - 1], log[|log| - 1];
    if last.Ran? {
      created := CreatedAt(front);
      ran := |log| - 1;
    } else {
      created, ran := CreatedAndRan(c, front);
    }
  }

  lemma {:induction false} CreatedAt(log: History) returns (created: nat)
    requires Alive(log).Some?
    ensures created < |log| && log[created].Created? && log[created].instance == Alive(log).value
    ensures forall i :: created < i < |log| ==> !log[i].Created? && log[i] != Left(Alive(log).value)
  {
    var front, last := log[..|log| - 1], log[|log| - 1];
    if last.Created? {
      created := |log| - 1;
    } else {
      created := CreatedAt(front);
    }
  }

  /**
   * The budget is reset only for the instance that was created last and has not
   * left, and only after it ran until its stability deadline, judged by when it
   * completed.
   */
  lemma ResetsEarned(c: RecoveryConfig, records: seq<Record>, actions: seq<Action>, k: nat, p: nat) returns (created: nat, ran: nat)
    requires IsRun(c, records, actions) && k < |records| && p < |records[k].log| && records[k].log[p].Stable?
    ensures var log := records[k].log;
            && created < ran < p && log[created].Created? && log[created].instance == log[p].instance
            && log[ran] == Ran(log[p].instance, log[p].since)
            && (forall i :: created < i < p ==> !log[i].Created? && log[i] != Left(log[p].instance))
            && (c.policy == Restart ==> log[p].until >= DeadlineAfter(log[p].since, c.stabilityWindow))
  {
    InvAlways(c, records, actions, k);
    HistoryPrefix(c, records[k].log, p);
    created, ran := CreatedAndRan(c, records[k].log[..p]);
  }

  lemma {:induction false} LeftBetween(log: History, p: nat, q: nat) returns (m: nat)
    requires p < q <= |log| && log[p].Created? && Alive(log[..q]).None?
    requires forall i :: p < i < q ==> !log[i].Created?
    ensures p < m < q && log[m] == Left(log[p].instance)
    decreases q
  {
    assert log[..q][..q - 1] == log[..q - 1];
    if Alive(log[..q - 1]).None? {
      m := LeftBetween(log, p, q - 1);
    } else {
      AliveIs(log, p, q - 1);
      m := q - 1;
    }
  }

  lemma {:induction false} AliveIs(log: History, p: nat, q: nat)
    requires p < q <= |log| && log[p].Created? && Alive(log[..q]).Some?
    requires forall i :: p < i < q ==> !log[i].Created?
    ensures Alive(log[..q]) == Some(log[p].instance)
    decreases q
  {
    assert log[..q][..q - 1] == log[..q - 1];
    if q > p + 1 {
      AliveIs(log, p, q - 1);
    }
  }

  /** Instances do not overlap: between two creations the first instance was joined and its registration gone. */
  lemma InstancesDoNotOverlap(c: RecoveryConfig, records: seq<Record>, actions: seq<Action>, k: nat, p: nat, q: nat) returns (m: nat)
    requires IsRun(c, records, actions) && k < |records| && p < q < |records[k].log|
    requires records[k].log[p].Created? && records[k].log[q].Created? && forall i :: p < i < q ==> !records[k].log[i].Created?
    ensures p < m < q && records[k].log[m] == Left(records[k].log[p].instance)
  {
    InvAlways(c, records, actions, k);
    HistoryPrefix(c, records[k].log, q);
    m := LeftBetween(records[k].log, p, q);
  }

  /** A replacement is not created before the delay that precedes it is over. */
  lemma ReplacementsWait(c: RecoveryConfig, records: seq<Record>, actions: seq<Action>, k: nat, p: nat)
    requires IsRun(c, records, actions) && k < |records| && p < |records[k].log| && records[k].log[p].Created?
    ensures LastUntil(records[k].log[..p]).Some? ==> records[k].log[p].at >= LastUntil(records[k].log[..p]).value
  {
    InvAlways(c, records, actions, k);
    HistoryPrefix(c, records[k].log, p);
  }

  // ------------------------------------------------------- object

  /** The supervisor of one worker; every method is one critical section, or the sequence that follows one observation. */
  class WorkerSupervisor {
    const config: RecoveryConfig
    var record: Record

    constructor (config: RecoveryConfig)
      ensures this.config == config && record == InitialRecord(config)
    {
      this.config := config;
      record := Record(Offline, 0, false, 0, config.initialBackoff, 0, 0, None, false, None, false, false, false, false, 0, []);
    }

    /** Only the first report of the current instance counts. */
    method ReportReady(instance: nat, ok: bool)
      modifies this
      ensures record == TakeReady(old(record), instance, ok)
    {
      if instance != record.instanceId || record.readyReport.Some? {
        return;
      }
      record := record.(readyReport := Some(ok));
    }

    method ReportActivated(instance: nat)
      modifies this
      ensures record == TakeActivated(old(record), instance)
    {
      if instance != record.instanceId || record.activated {
        return;
      }
      record := record.(activated := true);
    }

    /** The completion keeps the time at which it happened, not the one at which it is noticed. */
    method ReportCompletion(instance: nat, now: Instant)
      modifies this
      ensures record == TakeCompletion(old(record), instance, now)
    {
      if instance != record.instanceId || record.completedAt.Some? {
        return;
      }
      record := record.(completedAt := Some(now));
    }

    method AcceptReady(marked: bool)
      requires record.state == Starting && record.readyReport == Some(true)
      modifies this
      ensures record == Accepted(old(record), marked)
    {
      if record.completedAt.Some? || !marked {
        return;
      }
      record := record.(state := Ready);
    }

    method Promote(now: Instant)
      requires record.state == Ready && record.activated
      modifies this
      ensures record == Promoted(config, old(record), now)
    {
      if record.completedAt.Some? {
        return;
      }
      record := record.(state := Running, since := now, log := record.log + [Ran(record.instanceId, now)]);
      record := record.(stableAt := DeadlineAfter(now, config.stabilityWindow));
    }

    method CheckStability(now: Instant)
      requires record.state == Running
      modifies this
      ensures record == Settled(config, old(record), now)
    {
      if record.completedAt.Some? {
        return;
      }
      if record.episode && now >= record.stableAt {
        record := record.(log := record.log + [Stable(record.instanceId, record.since, now)]);
        record := record.(episode := false, attempts := 0);
        record := record.(nextBackoff := config.initialBackoff);
      }
    }

    method OpenEpisode(released: bool)
      modifies this
      ensures record == Opened(config, old(record), released)
    {
      if record.state == Running && record.episode && record.completedAt.Some? && record.completedAt.value >= record.stableAt {
        record := record.(log := record.log + [Stable(record.instanceId, record.since, record.completedAt.value)]);
        record := record.(episode := false, attempts := 0);
      }
      if !record.episode {
        record := record.(episode := released);
        record := record.(nextBackoff := config.initialBackoff);
      }
    }

    /** Thread, instance and registration are gone together, or nothing of them. */
    method JoinAndReset(joins: bool) returns (ok: bool)
      modifies this
      ensures ok <==> joins || !old(record).joinable
      ensures record == if ok then Quit(old(record)) else old(record).(state := if old(record).state == Exited then Exited else Stopping)
    {
      if record.joinable && record.state != Exited {
        record := record.(state := Stopping);
      }
      if record.joinable && !joins {
        return false;
      }
      record := record.(state := Joined);
      record := record.(joinable := false);
      record := record.(hasInstance := false);
      record := record.(registered := false, log := record.log + [Left(record.instanceId)]);
      record := record.(state := Offline);
      ok := true;
    }

    /**
     * Handles the failure of a worker: it is replaced exactly when the episode
     * has attempts left and the policy allows it.
     */
    method HandleFailure(code: FailureCode, h: Handling) returns (v: Verdict)
      modifies this
      ensures v == FailureVerdict(config, old(record), code, h)
      ensures record == AfterFailure(config, old(record), code, h)
    {
      if h.stopBefore {
        record := record.(over := true);
        return StopRequested;
      }
      OpenEpisode(h.released);
      v := Remove(code, h);
    }

    method Remove(code: FailureCode, h: Handling) returns (v: Verdict)
      modifies this
      ensures v == ReplacementVerdict(config, old(record), code, h)
      ensures record == Removed(config, old(record), code, h)
    {
      var joined := TakeDown(h.joins);
      if !joined {
        record := record.(over := true);
        return ServiceFails(JoinFailed, false);
      }
      if h.stopAfter {
        record := record.(over := true);
        return StopRequested;
      }
      v := Conclude(code, h);
    }

    method TakeDown(joins: bool) returns (ok: bool)
      modifies this
      ensures ok <==> joins || !old(record).joinable
      ensures record == if ok then Quit(old(record)) else old(record).(state := if old(record).completedAt.Some? then Exited else Stopping)
    {
      record := record.(state := if record.completedAt.Some? then Exited else Stopping);
      ok := JoinAndReset(joins);
    }

    /** The end of handling a failure, once nothing of the instance is left. */
    method Conclude(code: FailureCode, h: Handling) returns (v: Verdict)
      modifies this
      ensures v == Judged(config, old(record), code, h.released)
      ensures record == if v == Recovering then BackedOff(config, old(record), h.now) else old(record).(over := true)
    {
      if h.released && record.episode && config.policy == Restart && code != InstanceIdExhausted {
        if record.attempts < config.maxAttempts {
          record := record.(state := Backoff);
          record := record.(restartAt := DeadlineAfter(h.now, record.nextBackoff));
          record := record.(log := record.log + [Delayed(record.nextBackoff, record.restartAt)]);
          record := record.(nextBackoff := DoubledBackoff(record.nextBackoff, config.maxBackoff));
          return Recovering;
        }
        record := record.(over := true);
        return ServiceFails(code, true);
      }
      record := record.(over := true);
      v := ServiceFails(code, false);
    }

    /** An attempt of an episode is charged first, whatever becomes of it; all reports of the previous instance are cleared. */
    method CreateWorker(now: Instant, stop: bool, registers: bool, creates: bool) returns (r: Creation)
      requires Gone(record)
      modifies this
      ensures r == CreationOf(old(record), stop, registers, creates)
      ensures record == AfterCreation(old(record), now, stop, registers, creates)
      ensures r == IsCreated <==> !stop && old(record).instanceId != MAX_WORD && registers && creates
      ensures !stop && old(record).instanceId != MAX_WORD ==>
                && record.instanceId == old(record).instanceId + 1 && record.episode == old(record).episode
                && record.readyReport.None? && !record.activated && record.completedAt.None?
                && record.log == old(record).log + (if record.episode then [Charged] else []) + [Created(record.instanceId, now, record.episode)]
    {
      if stop {
        return Cancelled;
      }
      if record.episode {
        record := record.(attempts := record.attempts + 1, log := record.log + [Charged]);
      }
      if record.instanceId == MAX_WORD {
        return NotCreated(InstanceIdExhausted);
      }
      record := record.(instanceId := record.instanceId + 1);
      record := record.(state := Creating, log := record.log + [Created(record.instanceId, now, record.episode)]);
      record := record.(readyReport := None, activated := false, completedAt := None);
      record := record.(registered := registers);
      if !registers || !creates {
        return NotCreated(CreateFailed);
      }
      record := record.(hasInstance := true);
      record := record.(state := Starting);
      r := IsCreated;
    }

    method TryReplace(m: Making, h: Handling) returns (v: Option<Verdict>)
      requires record.state == Backoff && Gone(record)
      modifies this
      ensures record == Replaced(config, old(record), m, h)
      ensures v == ReplaceVerdict(config, old(record), m, h)
      ensures v.None? <==> m.now < old(record).restartAt
                           || (m.starts && CreationOf(old(record), m.stop, m.registers, m.creates) == IsCreated)
    {
      if m.now < record.restartAt {
        return None;
      }
      var created := CreateWorker(m.now, m.stop, m.registers, m.creates);
      if created == Cancelled {
        record := record.(over := true);
        return Some(StopRequested);
      }
      if created == IsCreated && m.starts {
        record := record.(joinable := true);
        return None;
      }
      var verdict := HandleFailure(if created.NotCreated? then created.code else ThreadStartFailed, h);
      v := Some(verdict);
    }

    /** The first instance of a worker. */
    method LaunchFirst(m: Making) returns (ok: bool)
      requires record.state == Offline && Gone(record)
      modifies this
      ensures record == Launched(old(record), m)
      ensures ok <==> m.starts && CreationOf(old(record), m.stop, m.registers, m.creates) == IsCreated
    {
      var created := CreateWorker(m.now, m.stop, m.registers, m.creates);
      if created != IsCreated || !m.starts {
        record := record.(over := true);
        return false;
      }
      record := record.(joinable := true);
      ok := true;
    }
  }
}
