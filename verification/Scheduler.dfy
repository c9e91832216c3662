/** The ready queue and the root list of the task scheduler, both threaded through the tasks. */
module Scheduler {
  import opened Basics

  datatype ScheduleResult = Scheduled | NotRunning | WrongThread | WrongScheduler | Completed | Duplicate

  class Task {
    var scheduler: Scheduler?
    var done: bool
    var queued: bool
    var readyNext: Task?
    var root: bool
    var rootPrevious: Task?
    var rootNext: Task?

    /** What the suspended task waits for. */
    ghost var awaits: Option<nat>

    constructor (scheduler: Scheduler)
      ensures this.scheduler == scheduler && !done && !queued && awaits == None && readyNext == null && !root && rootPrevious == null && rootNext == null
    {
      this.scheduler := scheduler;
      awaits := None;
      done, queued, readyNext, root, rootPrevious, rootNext := false, false, null, false, null, null;
    }
  }

  /** The task at `i`, or none outside the sequence. */
  function Entry(tasks: seq<Task>, i: int): Task? {
    if 0 <= i < |tasks| then tasks[i] else null
  }

  /** A woken task that can run and is not queued yet goes to the end of the queue. */
  ghost function WokenOne(ready: seq<Task>, task: Task, live: set<Task>): seq<Task> {
    if task in live && task !in ready then ready + [task] else ready
  }

  /** The queue after waking tasks in order. */
  ghost function Woken(ready: seq<Task>, wakes: seq<Task>, live: set<Task>): seq<Task> {
    if wakes == [] then ready else WokenOne(Woken(ready, wakes[..|wakes| - 1], live), wakes[|wakes| - 1], live)
  }

  /** Waking appends, each task that can run and is not queued exactly once. */
  lemma {:induction false} WokenExactly(ready: seq<Task>, wakes: seq<Task>, live: set<Task>) returns (arrived: seq<Task>)
    ensures Woken(ready, wakes, live) == ready + arrived && NoRepeats(arrived)
    ensures forall t :: t in arrived <==> t in wakes && t in live && t !in ready
  {
    if wakes == [] {
      arrived := [];
    } else {
      var last := wakes[|wakes| - 1];
      arrived := WokenExactly(ready, wakes[..|wakes| - 1], live);
      assert wakes == wakes[..|wakes| - 1] + [last];
      if last in live && last !in ready + arrived {
        assert ready + arrived + [last] == ready + (arrived + [last]);
        arrived := arrived + [last];
      }
    }
  }

  /** All tasks that have run, in order, and the queue they leave; the i-th of them wakes wakes(i). */
  ghost function Dispatch(resumed: seq<Task>, ready: seq<Task>, wakes: nat -> seq<Task>, live: set<Task>, budget: nat): (seq<Task>, seq<Task>)
    decreases budget - |resumed|
  {
    if |resumed| >= budget || ready == [] then (resumed, ready)
    else Dispatch(resumed + [ready[0]], Woken(ready[1..], wakes(|resumed|), live), wakes, live, budget)
  }

  /** One of the tasks that ran from `first` on, before `end`, woke the task. */
  predicate WokenBy(wakes: nat -> seq<Task>, t: Task, first: nat, end: nat) {
    exists i :: first <= i < end && t in wakes(i)
  }

  /** Nothing is lost or overtaken: the old queue and then the arrivals are what runs and then what is still queued. */
  lemma {:induction false} DispatchConserves(resumed: seq<Task>, ready: seq<Task>, wakes: nat -> seq<Task>, live: set<Task>, budget: nat)
    returns (arrived: seq<Task>)
    requires |resumed| <= budget
    ensures var d := Dispatch(resumed, ready, wakes, live, budget);
            resumed + ready + arrived == d.0 + d.1 && |resumed| <= |d.0| <= budget && (|d.0| == budget || d.1 == [])
    ensures forall t :: t in arrived ==> t in live && WokenBy(wakes, t, |resumed|, |Dispatch(resumed, ready, wakes, live, budget).0|)
    decreases budget - |resumed|
  {
    if |resumed| >= budget || ready == [] {
      arrived := [];
    } else {
      var rest := ready[1..];
      var first := WokenExactly(rest, wakes(|resumed|), live);
      var more := DispatchConserves(resumed + [ready[0]], rest + first, wakes, live, budget);
      arrived := first + more;
      assert resumed + ready + arrived == (resumed + [ready[0]]) + (rest + first) + more;
      forall t | t in arrived ensures t in live && WokenBy(wakes, t, |resumed|, |Dispatch(resumed, ready, wakes, live, budget).0|) {
        if t in first {
          assert t in wakes(|resumed|);
        } else {
          var i :| |resumed| + 1 <= i < |Dispatch(resumed, ready, wakes, live, budget).0| && t in wakes(i);
        }
      }
    }
  }

  /** A live task that was woken while another ran runs after it, or is still queued. */
  lemma {:induction false} WakesServed(resumed: seq<Task>, ready: seq<Task>, wakes: nat -> seq<Task>, live: set<Task>, budget: nat, i: nat, t: Task)
    requires |resumed| <= budget && |resumed| <= i < |Dispatch(resumed, ready, wakes, live, budget).0| && t in wakes(i) && t in live
    ensures var d := Dispatch(resumed, ready, wakes, live, budget); t in (d.0 + d.1)[i + 1..]
    decreases budget - |resumed|
  {
    var d := Dispatch(resumed, ready, wakes, live, budget);
    if |resumed| < budget && ready != [] {
      var first := WokenExactly(ready[1..], wakes(|resumed|), live);
      var done, queue := resumed + [ready[0]], ready[1..] + first;
      if i == |resumed| {
        var more := DispatchConserves(done, queue, wakes, live, budget);
        assert (done + queue + more)[i + 1..] == queue + more;
        assert t in queue;
      } else {
        WakesServed(done, queue, wakes, live, budget, i, t);
      }
    }
  }

  class Scheduler {
    var running: bool
    var ownerThread: nat
    var readyHead: Task?
    var readyTail: Task?
    var readyCount: nat
    var rootHead: Task?
    var activeCount: nat

    /** The tasks of the two lists, in order. */
    ghost var ready: seq<Task>
    ghost var roots: seq<Task>

    constructor ()
      ensures ReadyLinked() && RootsLinked() && ready == [] && roots == [] && !running
    {
      running, ownerThread, readyHead, readyTail, readyCount, rootHead, activeCount := false, 0, null, null, 0, null, 0;
      ready, roots := [], [];
    }

    ghost predicate ReadyLinked()
      reads this`ready, this`readyHead, this`readyTail, this`readyCount, ready`queued, ready`readyNext
    {
      && NoRepeats(ready) && readyCount == |ready|
      && readyHead == Entry(ready, 0) && readyTail == Entry(ready, |ready| - 1)
      && (forall i {:trigger ready[i].queued} {:trigger ready[i].readyNext} :: 0 <= i < |ready| ==>
            ready[i].queued && ready[i].readyNext == Entry(ready, i + 1))
    }

    ghost predicate RootsLinked()
      reads this`roots, this`rootHead, this`activeCount, roots`root, roots`rootPrevious, roots`rootNext
    {
      && NoRepeats(roots) && activeCount == |roots| && rootHead == Entry(roots, 0)
      && (forall i {:trigger roots[i].root} {:trigger roots[i].rootPrevious} {:trigger roots[i].rootNext} :: 0 <= i < |roots| ==>
            roots[i].root && roots[i].rootPrevious == Entry(roots, i - 1) && roots[i].rootNext == Entry(roots, i + 1))
    }

    /** The flag of a task says whether it is queued. */
    ghost predicate FlagsMatch(tasks: set<Task>)
      reads this`ready, tasks`queued
    {
      forall t :: t in tasks ==> (t.queued <==> t in ready)
    }

    /** An idle scheduler is bound to the thread that starts it. */
    method Start(thread: nat) returns (ok: bool)
      requires ReadyLinked() && RootsLinked()
      modifies this`running, this`ownerThread
      ensures ReadyLinked() && RootsLinked()
      ensures ok <==> !old(running) && ready == [] && roots == []
      ensures if ok then running && ownerThread == thread else unchanged(this)
    {
      if running || readyHead != null || rootHead != null {
        return false;
      }
      running, ownerThread := true, thread;
      ok := true;
    }

    /** A task that is already queued is not queued again; any other goes to the end of the queue. */
    method Schedule(task: Task, caller: nat) returns (r: ScheduleResult)
      requires ReadyLinked() && (task.queued <==> task in ready)
      modifies this`ready, this`readyHead, this`readyTail, this`readyCount, task`queued, task`readyNext, ready`readyNext
      ensures ReadyLinked() && (task.queued <==> task in ready)
      ensures r == if !running then NotRunning
                   else if ownerThread != caller then WrongThread
                   else if task.scheduler != this then WrongScheduler
                   else if task.done then Completed
                   else if task in old(ready) then Duplicate
                   else Scheduled
      ensures ready == if r == Scheduled then old(ready) + [task] else old(ready)
    {
      if !running {
        return NotRunning;
      }
      if ownerThread != caller {
        return WrongThread;
      }
      if task.scheduler != this {
        return WrongScheduler;
      }
      if task.done {
        return Completed;
      }
      if task.queued {
        return Duplicate;
      }
      task.readyNext := null;
      task.queued := true;
      if readyTail != null {
        assert readyTail == ready[|ready| - 1];
        readyTail.readyNext := task;
      } else {
        readyHead := task;
      }
      readyTail := task;
      readyCount := readyCount + 1;
      ready := ready + [task];
      r := Scheduled;
    }

    /** The task that was scheduled first leaves the queue. */
    method PopReady() returns (task: Task)
      requires ReadyLinked() && readyHead != null
      modifies this`ready, this`readyHead, this`readyTail, this`readyCount, ready`queued, ready`readyNext
      ensures ReadyLinked() && old(ready) == [task] + ready && !task.queued && task.readyNext == null
      ensures task !in ready && forall t :: t in old(ready) && t != task ==> t.queued
    {
      task := readyHead;
      assert task == ready[0];
      readyHead := task.readyNext;
      if readyHead == null {
        readyTail := null;
      }
      task.readyNext := null;
      task.queued := false;
      readyCount := readyCount - 1;
      ready := ready[1..];
    }

    /** The tasks of this scheduler that have not completed. */
    ghost function Live(tasks: set<Task>): set<Task>
      reads tasks`scheduler, tasks`done
    {
      set t | t in tasks && t.scheduler == this && !t.done
    }

    ghost predicate Within(tasks: set<Task>)
      reads this`ready
    {
      forall i :: 0 <= i < |ready| ==> ready[i] in tasks
    }

    method WakeOne(task: Task, caller: nat, ghost tasks: set<Task>)
      requires ReadyLinked() && FlagsMatch(tasks) && Within(tasks) && task in tasks && running && ownerThread == caller
      modifies this`ready, this`readyHead, this`readyTail, this`readyCount, tasks`queued, tasks`readyNext
      ensures ReadyLinked() && FlagsMatch(tasks) && Within(tasks) && ready == WokenOne(old(ready), task, Live(tasks))
    {
      var r := Schedule(task, caller);
    }

    method PopTracked(ghost tasks: set<Task>) returns (task: Task)
      requires ReadyLinked() && FlagsMatch(tasks) && Within(tasks) && readyHead != null
      modifies this`ready, this`readyHead, this`readyTail, this`readyCount, tasks`queued, tasks`readyNext
      ensures ReadyLinked() && FlagsMatch(tasks) && Within(tasks) && old(ready) == [task] + ready
    {
      ghost var before := ready;
      task := PopReady();
      Popped(before, task, ready);
    }

    /** A resumed task wakes the tasks in `wakes`; those that can be are queued in that order. */
    method Wake(wakes: seq<Task>, caller: nat, ghost tasks: set<Task>)
      requires ReadyLinked() && FlagsMatch(tasks) && Within(tasks) && forall k :: 0 <= k < |wakes| ==> wakes[k] in tasks
      requires running && ownerThread == caller
      modifies this`ready, this`readyHead, this`readyTail, this`readyCount, tasks`queued, tasks`readyNext
      ensures ReadyLinked() && FlagsMatch(tasks) && Within(tasks) && ready == Woken(old(ready), wakes, Live(tasks))
    {
      ghost var live := Live(tasks);
      for k := 0 to |wakes|
        invariant ReadyLinked() && FlagsMatch(tasks) && Within(tasks) && ready == Woken(old(ready), wakes[..k], live)
      {
        WakeOne(wakes[k], caller, tasks);
        assert wakes[..k + 1][..k] == wakes[..k];
      }
      assert wakes[..|wakes|] == wakes;
    }

    method RunOne(wakes: seq<Task>, caller: nat, ghost tasks: set<Task>) returns (task: Task)
      requires ReadyLinked() && FlagsMatch(tasks) && Within(tasks) && readyHead != null && forall k :: 0 <= k < |wakes| ==> wakes[k] in tasks
      requires running && ownerThread == caller
      modifies this`ready, this`readyHead, this`readyTail, this`readyCount, tasks`queued, tasks`readyNext
      ensures ReadyLinked() && FlagsMatch(tasks) && Within(tasks) && old(ready) != [] && task == old(ready)[0]
      ensures ready == Woken(old(ready)[1..], wakes, Live(tasks))
    {
      ghost var before := ready;
      task := PopTracked(tasks);
      assert ready == before[1..];
      Wake(wakes, caller, tasks);
    }

    /**
     * Up to `budget` tasks run, first in, first out, behind one another; what
     * they wake and is not queued already goes to the end. `wakes` says what
     * the i-th of them wakes.
     */
    method RunReady(budget: nat, caller: nat, wakes: nat -> seq<Task>, ghost tasks: set<Task>) returns (resumed: seq<Task>)
      requires ReadyLinked() && FlagsMatch(tasks) && Within(tasks) && forall i: nat, k: nat :: k < |wakes(i)| ==> wakes(i)[k] in tasks
      modifies this`ready, this`readyHead, this`readyTail, this`readyCount, tasks`queued, tasks`readyNext
      ensures ReadyLinked() && FlagsMatch(tasks) && Within(tasks)
      ensures !(running && ownerThread == caller) ==> resumed == [] && ready == old(ready)
      ensures running && ownerThread == caller ==> (resumed, ready) == Dispatch([], old(ready), wakes, Live(tasks), budget)
    {
      resumed := [];
      if !running || ownerThread != caller {
        return;
      }
      ghost var live := Live(tasks);
      ghost var whole := Dispatch([], ready, wakes, live, budget);
      while |resumed| < budget && readyHead != null
        invariant ReadyLinked() && FlagsMatch(tasks) && Within(tasks) && |resumed| <= budget
        invariant whole == Dispatch(resumed, ready, wakes, live, budget)
        decreases budget - |resumed|
      {
        var task := RunOne(wakes(|resumed|), caller, tasks);
        resumed := resumed + [task];
      }
    }

    /** The queue is emptied and every task may be scheduled again. */
    method ClearReady()
      requires ReadyLinked()
      modifies this`ready, this`readyHead, this`readyTail, this`readyCount, ready`queued, ready`readyNext
      ensures ReadyLinked() && ready == [] && forall i :: 0 <= i < |old(ready)| ==> !old(ready)[i].queued && old(ready)[i].readyNext == null
    {
      ghost var all := ready;
      ghost var k := 0;
      while readyHead != null
        invariant 0 <= k <= |all| && readyHead == Entry(all, k)
        invariant forall i :: 0 <= i < k ==> !all[i].queued && all[i].readyNext == null
        invariant forall i {:trigger all[i].readyNext} :: k <= i < |all| ==> all[i].readyNext == Entry(all, i + 1)
        decreases |all| - k
      {
        var task := readyHead;
        readyHead := task.readyNext;
        task.readyNext := null;
        task.queued := false;
        k := k + 1;
      }
      readyTail := null;
      readyCount := 0;
      ready := [];
    }

    /** A new root goes to the front of the root list. */
    method LinkRoot(task: Task)
      requires RootsLinked() && !task.root && task !in roots
      modifies this`roots, this`rootHead, this`activeCount, task`root, task`rootPrevious, task`rootNext, roots`rootPrevious
      ensures RootsLinked() && roots == [task] + old(roots)
    {
      task.root := true;
      task.rootPrevious := null;
      task.rootNext := rootHead;
      if rootHead != null {
        assert rootHead == roots[0];
        rootHead.rootPrevious := task;
      }
      rootHead := task;
      activeCount := activeCount + 1;
      ghost var before := roots;
      roots := [task] + roots;
      assert forall i :: 0 < i < |roots| ==> roots[i] == before[i - 1];
    }

    /** A root leaves the list from wherever it is; the others keep their order. */
    method UnlinkRoot(task: Task)
      requires RootsLinked() && (task.root <==> task in roots)
      modifies this`roots, this`rootHead, this`activeCount, roots`root, roots`rootPrevious, roots`rootNext
      ensures RootsLinked() && !task.root && task !in roots
      ensures task !in old(roots) ==> roots == old(roots)
      ensures forall k :: 0 <= k < |old(roots)| && old(roots)[k] == task ==> roots == old(roots)[..k] + old(roots)[k + 1..]
    {
      if !task.root {
        return;
      }
      ghost var k :| 0 <= k < |roots| && roots[k] == task;
      UnlinkAt(task, k);
    }

    method UnlinkAt(task: Task, ghost k: nat)
      requires RootsLinked() && k < |roots| && roots[k] == task
      modifies this`roots, this`rootHead, this`activeCount, roots`root, roots`rootPrevious, roots`rootNext
      ensures RootsLinked() && roots == old(roots)[..k] + old(roots)[k + 1..] && !task.root && task !in roots
    {
      ghost var before := roots;
      ghost var after := roots[..k] + roots[k + 1..];
      RemovedTask(before, k, after);
      assert task.rootPrevious == Entry(before, k - 1) && task.rootNext == Entry(before, k + 1);
      if task.rootPrevious != null {
        task.rootPrevious.rootNext := task.rootNext;
      } else {
        rootHead := task.rootNext;
      }
      if task.rootNext != null {
        task.rootNext.rootPrevious := task.rootPrevious;
      }
      task.rootPrevious := null;
      task.rootNext := null;
      task.root := false;
      activeCount := activeCount - 1;
      roots := after;
      forall i | 0 <= i < |after|
        ensures after[i].root && after[i].rootPrevious == Entry(after, i - 1) && after[i].rootNext == Entry(after, i + 1)
      {
        var j := if i < k then i else i + 1;
        assert after[i] == before[j] && old(before[j].root);
        assert j != k + 1 ==> after[i].rootPrevious == old(before[j].rootPrevious);
        assert j != k - 1 ==> after[i].rootNext == old(before[j].rootNext);
      }
    }
  }

  lemma Popped(before: seq<Task>, task: Task, after: seq<Task>)
    requires before == [task] + after
    ensures (forall t :: t in before <==> t == task || t in after) && forall i :: 0 <= i < |after| ==> after[i] in before
  {
    assert forall i :: 0 <= i < |after| ==> after[i] == before[i + 1];
  }

  lemma RemovedTask(before: seq<Task>, k: nat, after: seq<Task>)
    requires NoRepeats(before) && k < |before| && after == before[..k] + before[k + 1..]
    ensures NoRepeats(after) && before[k] !in after
    ensures forall i :: 0 <= i < |after| ==> after[i] == before[if i < k then i else i + 1]
  {
  }
}
