/** What the supervisor decides on a failure, told from the worker's history and the configuration. */
module RecoveryBudget {
  import opened Basics
  import opened Words
  import opened WorkerRecovery

  // ------------------------------------------------------- charges

  /** Attempts charged among some events. */
  function Charges(events: History): nat {
    if events == [] then 0 else Charges(events[..|events| - 1]) + One(events[|events| - 1].Charged?)
  }

  /** The events from `j` on are those since the last reset. */
  predicate SinceReset(log: History, j: nat) {
    j <= |log| && (j == 0 || log[j - 1].Stable?) && forall p :: j <= p < |log| ==> !log[p].Stable?
  }

  lemma {:induction false} ChargesSinceReset(log: History, j: nat)
    requires SinceReset(log, j)
    ensures Attempts(log) == Charges(log[j..])
    decreases |log|
  {
    if j < |log| {
      var front := log[..|log| - 1];
      ChargesSinceReset(front, j);
      assert log[j..][..|log| - j - 1] == front[j..];
    }
  }

  /** The instance that was created last ran through its stability window before it completed. */
  predicate RanLongEnough(c: RecoveryConfig, log: History, completed: Option<Instant>) {
    RunningSince(log).Some? && completed.Some? && completed.value >= DeadlineAfter(RunningSince(log).value, c.stabilityWindow)
  }

  // ------------------------------------------------------- one failure

  /** A record whose worker failed and is still to be removed. */
  predicate Failing(c: RecoveryConfig, r: Record) {
    ValidRecovery(c) && HistoryOk(c, r.log) && Counted(c, r, 0) && Placed(r) && !r.over
  }

  /** The failure is handled to its end: the worker is joined and nobody asks to stop. */
  predicate Undisturbed(r: Record, h: Handling) {
    !h.stopBefore && (h.joins || !r.joinable) && !h.stopAfter
  }

  lemma OpenedCharges(c: RecoveryConfig, r: Record, released: bool, s: Record)
    requires Failing(c, r) && s == Opened(c, r, released)
    ensures s.attempts == Attempts(s.log) && s.joinable == r.joinable && (released ==> s.episode) && !s.over
    ensures c.policy == Restart ==> s.attempts <= c.maxAttempts && (s.episode ==> s.nextBackoff == Delay(c, s.attempts))
    ensures Attempts(s.log) == if r.state == Running && RanLongEnough(c, r.log, r.completedAt) then 0 else Attempts(r.log)
  {
    if Outlived(r) {
      Logged(c, r.log, Stable(r.instanceId, r.since, r.completedAt.value));
    }
    if c.policy == Restart {
      DelayDoubles(c, 0);
    }
  }

  lemma RemovalKeepsCharges(c: RecoveryConfig, r: Record, code: FailureCode, h: Handling, s: Record)
    requires s == Removed(c, r, code, h)
    ensures Attempts(s.log) == Attempts(r.log)
  {
    var quit := Quit(r);
    Logged(c, r.log, Left(r.instanceId));
    Logged(c, quit.log, Delayed(quit.nextBackoff, DeadlineAfter(h.now, quit.nextBackoff)));
  }

  /** A failure that is handled drops all charges after a full stability window, and none otherwise. */
  lemma FailureCharges(c: RecoveryConfig, r: Record, code: FailureCode, h: Handling, s: Record)
    requires Failing(c, r) && !h.stopBefore && s == AfterFailure(c, r, code, h)
    ensures Attempts(s.log) == if r.state == Running && RanLongEnough(c, r.log, r.completedAt) then 0 else Attempts(r.log)
    ensures Attempts(s.log) == Opened(c, r, h.released).attempts
  {
    var begun := Opened(c, r, h.released);
    OpenedCharges(c, r, h.released, begun);
    RemovalKeepsCharges(c, begun, code, h, s);
  }

  /**
   * The verdict on a failure that leads from `r` to `s`, where `j` is the place
   * of the last reset: a worker is replaced exactly when the policy is to
   * restart, the data plane is released, instance ids are left, the worker is
   * joined without a stop, and fewer attempts than configured are charged since
   * that reset. The budget is called exhausted exactly when only that fails.
   * Before the replacement the worker waits, from the time of the failure on,
   * twice as long for every charge, up to the maximum.
   */
  predicate VerdictFits(c: RecoveryConfig, r: Record, code: FailureCode, h: Handling, s: Record, j: nat, v: Verdict)
    requires j <= |s.log|
  {
    var allowed := c.policy == Restart && h.released && code != InstanceIdExhausted && Undisturbed(r, h);
    && (v == Recovering <==> allowed && Charges(s.log[j..]) < c.maxAttempts)
    && (v.ServiceFails? && v.budgetExhausted <==> allowed && Charges(s.log[j..]) == c.maxAttempts)
    && (v == StopRequested <==> h.stopBefore || (h.stopAfter && (h.joins || !r.joinable)))
    && (v.ServiceFails? ==> v.code == if r.joinable && !h.joins then JoinFailed else code)
    && (v == Recovering <==> !s.over)
    && (v == Recovering ==> s.state == Backoff && LastDelay(s, Min(c.initialBackoff * Pow2(Charges(s.log[j..])), c.maxBackoff), h.now))
  }

  /** The last event is a delay of this length from this time on, and the replacement waits for its end. */
  predicate LastDelay(s: Record, delay: int, from: Instant) {
    |s.log| > 0 && s.log[|s.log| - 1] == Delayed(delay, s.restartAt) && s.restartAt == DeadlineAfter(from, delay)
  }

  lemma VerdictExactly(c: RecoveryConfig, r: Record, code: FailureCode, h: Handling, s: Record, j: nat)
    requires Failing(c, r) && s == AfterFailure(c, r, code, h) && SinceReset(s.log, j)
    ensures VerdictFits(c, r, code, h, s, j, FailureVerdict(c, r, code, h))
  {
    ChargesSinceReset(s.log, j);
    if !h.stopBefore {
      var begun := Opened(c, r, h.released);
      FailureCharges(c, r, code, h, s);
      OpenedCharges(c, r, h.released, begun);
      RemovalVerdict(c, begun, code, h, s);
    }
  }

  lemma RemovalVerdict(c: RecoveryConfig, r: Record, code: FailureCode, h: Handling, s: Record)
    requires s == Removed(c, r, code, h) && !r.over && (h.released ==> r.episode) && (c.policy == Restart ==> r.attempts <= c.maxAttempts)
    ensures var v := ReplacementVerdict(c, r, code, h);
            var allowed := c.policy == Restart && h.released && code != InstanceIdExhausted && (h.joins || !r.joinable) && !h.stopAfter;
            && (v == Recovering <==> allowed && r.attempts < c.maxAttempts)
            && (v.ServiceFails? && v.budgetExhausted <==> allowed && r.attempts == c.maxAttempts)
            && (v == StopRequested <==> h.stopAfter && (h.joins || !r.joinable))
            && (v.ServiceFails? ==> v.code == if r.joinable && !h.joins then JoinFailed else code)
            && (v == Recovering <==> !s.over) && (v == Recovering ==> s.state == Backoff && LastDelay(s, r.nextBackoff, h.now))
  {
  }

  // ------------------------------------------------------- over runs

  /** In every run, the verdict on a failed worker is read off its history. */
  lemma RunVerdict(c: RecoveryConfig, records: seq<Record>, actions: seq<Action>, k: nat, j: nat)
    requires IsRun(c, records, actions) && k < |actions| && actions[k].Fail? && SinceReset(records[k + 1].log, j)
    ensures var code, h := actions[k].code, actions[k].handling;
            VerdictFits(c, records[k], code, h, records[k + 1], j, FailureVerdict(c, records[k], code, h))
  {
    InvAlways(c, records, actions, k);
    VerdictExactly(c, records[k], actions[k].code, actions[k].handling, records[k + 1], j);
  }

  /** The charges count on through a failure, unless the worker had run through its stability window. */
  lemma RunCharges(c: RecoveryConfig, records: seq<Record>, actions: seq<Action>, k: nat, i: nat, j: nat)
    requires IsRun(c, records, actions) && k < |actions| && actions[k].Fail? && !actions[k].handling.stopBefore
    requires SinceReset(records[k].log, i) && SinceReset(records[k + 1].log, j)
    ensures Charges(records[k + 1].log[j..])
         == if RanLongEnough(c, records[k].log, records[k].completedAt) then 0 else Charges(records[k].log[i..])
  {
    InvAlways(c, records, actions, k);
    FailureCharges(c, records[k], actions[k].code, actions[k].handling, records[k + 1]);
    ChargesSinceReset(records[k].log, i);
    ChargesSinceReset(records[k + 1].log, j);
  }

  /** A look at a worker that still runs at its stability deadline clears the charges; an earlier look changes nothing. */
  lemma StabilityRewarded(c: RecoveryConfig, records: seq<Record>, actions: seq<Action>, k: nat, j: nat)
    requires IsRun(c, records, actions) && k < |actions| && actions[k].CheckStability? && SinceReset(records[k + 1].log, j)
    ensures RunningSince(records[k].log).Some?
    ensures var due := DeadlineAfter(RunningSince(records[k].log).value, c.stabilityWindow);
            if records[k].completedAt.None? && actions[k].now >= due then Charges(records[k + 1].log[j..]) == 0
            else records[k + 1] == records[k]
  {
    InvAlways(c, records, actions, k);
    ChargesSinceReset(records[k + 1].log, j);
    Logged(c, records[k].log, Stable(records[k].instanceId, records[k].since, actions[k].now));
  }

  /** What an attempt to replace adds to the history: its charge, and the instance when there is an id for it. */
  lemma AttemptCharged(c: RecoveryConfig, r: Record, m: Making, s: Record)
    requires Inv(c, r) && !r.over && r.state == Backoff && !m.stop && s == AfterCreation(r, m.now, m.stop, m.registers, m.creates)
    ensures Attempts(s.log) == Attempts(r.log) + 1 && s.state != Running
  {
    Logged(c, r.log, Charged);
    Logged(c, r.log + [Charged], Created(r.instanceId + 1, m.now, r.episode));
    assert r.log + [Charged] + [Created(r.instanceId + 1, m.now, r.episode)] == r.log + [Charged, Created(r.instanceId + 1, m.now, r.episode)];
  }

  /**
   * In every run, a replacement is attempted exactly when its delay is over and
   * nobody asks to stop. It is charged; if it fails, the verdict is read off the
   * history as for a worker that failed, with this charge included.
   */
  lemma RunReplacement(c: RecoveryConfig, records: seq<Record>, actions: seq<Action>, k: nat, i: nat, j: nat)
    requires IsRun(c, records, actions) && k < |actions| && actions[k].Replace?
    requires SinceReset(records[k].log, i) && SinceReset(records[k + 1].log, j)
    ensures var r, s, m, h := records[k], records[k + 1], actions[k].making, actions[k].handling;
            var due := LastUntil(r.log).Some? && m.now >= LastUntil(r.log).value;
            && Charges(s.log[j..]) == Charges(r.log[i..]) + One(due && !m.stop)
            && (!due ==> s == r)
            && (due && !m.stop && CreationFailure(r, m).Some? ==>
                  VerdictFits(c, AfterCreation(r, m.now, false, m.registers, m.creates), CreationFailure(r, m).value, h, s, j,
                              FailureVerdict(c, AfterCreation(r, m.now, false, m.registers, m.creates), CreationFailure(r, m).value, h)))
  {
    InvAlways(c, records, actions, k);
    Replacement(c, records[k], actions[k].making, actions[k].handling, records[k + 1], j);
    ChargesSinceReset(records[k].log, i);
    ChargesSinceReset(records[k + 1].log, j);
  }

  lemma Replacement(c: RecoveryConfig, r: Record, m: Making, h: Handling, s: Record, j: nat)
    requires Inv(c, r) && !r.over && r.state == Backoff && s == Replaced(c, r, m, h) && SinceReset(s.log, j)
    ensures Attempts(s.log) == Attempts(r.log) + One(m.now >= r.restartAt && !m.stop)
    ensures m.now < r.restartAt ==> s == r
    ensures m.now >= r.restartAt && !m.stop && CreationFailure(r, m).Some? ==>
              var made := AfterCreation(r, m.now, false, m.registers, m.creates);
              VerdictFits(c, made, CreationFailure(r, m).value, h, s, j, FailureVerdict(c, made, CreationFailure(r, m).value, h))
  {
    if m.now >= r.restartAt && !m.stop {
      var made := AfterCreation(r, m.now, false, m.registers, m.creates);
      AttemptCharged(c, r, m, made);
      CreationKeeps(c, r, m.now, m.registers, m.creates, made);
      if CreationFailure(r, m).Some? {
        FailedReplacement(c, r, m, h, made, s, j);
      }
    }
  }

  lemma FailedReplacement(c: RecoveryConfig, r: Record, m: Making, h: Handling, made: Record, s: Record, j: nat)
    requires Failing(c, made) && made.state != Running && SinceReset(s.log, j)
    requires CreationFailure(r, m).Some? && s == AfterFailure(c, made, CreationFailure(r, m).value, h)
    ensures Attempts(s.log) == Attempts(made.log)
    ensures VerdictFits(c, made, CreationFailure(r, m).value, h, s, j, FailureVerdict(c, made, CreationFailure(r, m).value, h))
  {
    VerdictExactly(c, made, CreationFailure(r, m).value, h, s, j);
    if !h.stopBefore {
      FailureCharges(c, made, CreationFailure(r, m).value, h, s);
    }
  }

  // ------------------------------------------------------- what is logged is what happened

  /** The event was logged in a step from `r` that really had this instance and this time. */
  predicate Stamped(c: RecoveryConfig, r: Record, a: Action, e: Event) {
    match e
    case Charged => a.Replace?
    case Created(instance, at, replacement) => instance == r.instanceId + 1 && ((a.Launch? && at == a.making.now) || (a.Replace? && at == a.making.now))
    case Left(instance) => (a.Fail? && instance == r.instanceId) || a.Replace?
    case Delayed(delay, until) => (a.Fail? || a.Replace?) && until == DeadlineAfter(a.handling.now, delay)
    case Ran(instance, since) => a.Promote? && since == a.now && instance == r.instanceId
    case Stable(instance, since, until) =>
      && instance == r.instanceId && since == r.since
      && ((a.CheckStability? && until == a.now && r.completedAt.None?) || (a.Fail? && r.completedAt == Some(until)))
  }

  predicate AllStamped(c: RecoveryConfig, base: Record, a: Action, log: History) {
    forall p :: |base.log| <= p < |log| ==> Stamped(c, base, a, log[p])
  }

  lemma OneMoreStamp(c: RecoveryConfig, base: Record, a: Action, log: History, e: Event)
    requires AllStamped(c, base, a, log) && Stamped(c, base, a, e)
    ensures AllStamped(c, base, a, log + [e])
  {
  }

  lemma RemovalStamped(c: RecoveryConfig, base: Record, a: Action, r: Record, code: FailureCode, s: Record)
    requires a.Fail? || a.Replace?
    requires AllStamped(c, base, a, r.log) && s == Removed(c, r, code, a.handling) && (a.Fail? ==> r.instanceId == base.instanceId)
    ensures AllStamped(c, base, a, s.log)
  {
    var quit := Quit(r);
    OneMoreStamp(c, base, a, r.log, Left(r.instanceId));
    OneMoreStamp(c, base, a, quit.log, Delayed(quit.nextBackoff, DeadlineAfter(a.handling.now, quit.nextBackoff)));
  }

  lemma FailStamped(c: RecoveryConfig, r: Record, a: Action, s: Record)
    requires a.Fail? && s == AfterFailure(c, r, a.code, a.handling)
    ensures AllStamped(c, r, a, s.log)
  {
    if !a.handling.stopBefore {
      var begun := Opened(c, r, a.handling.released);
      if Outlived(r) {
        OneMoreStamp(c, r, a, r.log, Stable(r.instanceId, r.since, r.completedAt.value));
      }
      RemovalStamped(c, r, a, begun, a.code, s);
    }
  }

  lemma CreationStamped(c: RecoveryConfig, r: Record, a: Action, made: Record)
    requires (a.Replace? && r.episode) || (a.Launch? && !r.episode)
    requires var m := a.making; made == AfterCreation(r, m.now, m.stop, m.registers, m.creates)
    ensures AllStamped(c, r, a, made.log)
  {
    if r.episode {
      OneMoreStamp(c, r, a, r.log, Charged);
      OneMoreStamp(c, r, a, r.log + [Charged], Created(r.instanceId + 1, a.making.now, r.episode));
    } else {
      OneMoreStamp(c, r, a, r.log, Created(r.instanceId + 1, a.making.now, r.episode));
    }
  }

  lemma ReplaceStamped(c: RecoveryConfig, r: Record, a: Action, s: Record)
    requires a.Replace? && r.state == Backoff && r.episode && s == Replaced(c, r, a.making, a.handling)
    ensures AllStamped(c, r, a, s.log)
  {
    var m := a.making;
    var made := AfterCreation(r, m.now, m.stop, m.registers, m.creates);
    CreationStamped(c, r, a, made);
    assert made.state != Running;
    if m.now >= r.restartAt && CreationFailure(r, m).Some? {
      HandledStamped(c, r, a, made, CreationFailure(r, m).value, s);
    }
  }

  lemma HandledStamped(c: RecoveryConfig, base: Record, a: Action, made: Record, code: FailureCode, s: Record)
    requires a.Replace? && made.state != Running && AllStamped(c, base, a, made.log) && s == AfterFailure(c, made, code, a.handling)
    ensures AllStamped(c, base, a, s.log)
  {
    if !a.handling.stopBefore {
      RemovalStamped(c, base, a, Opened(c, made, a.handling.released), code, s);
    }
  }

  lemma QuietStamped(c: RecoveryConfig, r: Record, a: Action, s: Record)
    requires !a.Fail? && !a.Replace? && !a.Launch? && s == Apply(c, r, a)
    ensures AllStamped(c, r, a, s.log)
  {
  }

  /** In every run, every event carries the instance and the time of the step that logged it. */
  lemma LogIsTrue(c: RecoveryConfig, records: seq<Record>, actions: seq<Action>, k: nat)
    requires IsRun(c, records, actions) && k < |actions|
    ensures AllStamped(c, records[k], actions[k], records[k + 1].log)
  {
    InvAlways(c, records, actions, k);
    var r, a, s := records[k], actions[k], records[k + 1];
    if a.Fail? {
      FailStamped(c, r, a, s);
    } else if a.Replace? {
      ReplaceStamped(c, r, a, s);
    } else if a.Launch? {
      var m := a.making;
      CreationStamped(c, r, a, AfterCreation(r, m.now, m.stop, m.registers, m.creates));
    } else {
      QuietStamped(c, r, a, s);
    }
  }

  // ------------------------------------------------------- progress

  /** A new instance that reports ready and activated, and does not complete, gets to run. */
  lemma HealthyWorkerRuns(c: RecoveryConfig, r: Record, now: Instant, activatedFirst: bool) returns (steps: seq<Action>, states: seq<Record>)
    requires r.state == Starting && !r.over && r.readyReport.None? && r.completedAt.None?
    ensures |steps| == 4 && |states| == 5 && states[0] == r
    ensures forall k :: 0 <= k < 4 ==> Enabled(states[k], steps[k]) && states[k + 1] == Apply(c, states[k], steps[k])
    ensures steps == (if activatedFirst then [ReportActivated(r.instanceId), ReportReady(r.instanceId, true)]
                      else [ReportReady(r.instanceId, true), ReportActivated(r.instanceId)]) + [AcceptReady(true), Promote(now)]
    ensures states[4].state == Running && states[4].log == r.log + [Ran(r.instanceId, now)]
  {
    var first, second := ReportReady(r.instanceId, true), ReportActivated(r.instanceId);
    steps := (if activatedFirst then [second, first] else [first, second]) + [AcceptReady(true), Promote(now)];
    var s1 := Apply(c, r, steps[0]);
    var s2 := Apply(c, s1, steps[1]);
    var s3 := Apply(c, s2, steps[2]);
    states := [r, s1, s2, s3, Apply(c, s3, steps[3])];
  }

  /** A live instance that completes, or reports that it is not ready, is handled as failed. */
  lemma FailureNoticed(c: RecoveryConfig, r: Record, at: Instant, code: FailureCode, h: Handling)
    requires IsLive(r) && !r.over
    ensures var s := Apply(c, r, ReportCompletion(r.instanceId, at));
            Enabled(s, Fail(code, h)) && s.completedAt == (if r.completedAt.None? then Some(at) else r.completedAt)
    ensures r.readyReport.None? ==> Enabled(Apply(c, r, ReportReady(r.instanceId, false)), Fail(code, h))
  {
  }
}
