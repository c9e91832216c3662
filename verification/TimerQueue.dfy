/** Deadlines in an intrusive indexed heap: every registration knows its place. */
module TimerQueue {
  import opened Basics
  import opened BinaryHeap

  const NOT_IN_HEAP: nat := MAX_WORD

  /** The clock's signed 64-bit representation, in nanoseconds. */
  newtype Ticks = x: int | -0x8000_0000_0000_0000 <= x < 0x8000_0000_0000_0000

  datatype ArmResult = Armed | NotRunning | Closed | WrongThread | AlreadyArmed | InvalidCallback

  datatype DispatchResult = DispatchResult(dispatched: nat, scheduleFailures: nat, hasDue: bool)

  class TimerRegistration {
    var owner: TimerQueue?
    var deadline: Ticks
    var sequence: nat
    var heapIndex: nat
    var hasCallback: bool

    /** The object this registration is embedded in, which its callback is given. */
    const home: nat

    constructor (home: nat)
      ensures owner == null && heapIndex == NOT_IN_HEAP && !hasCallback && this.home == home
    {
      this.home := home;
      owner, deadline, sequence, heapIndex, hasCallback := null, 0, 0, NOT_IN_HEAP, false;
    }

    function Order(): Key
      reads this`deadline, this`sequence
    {
      Key(deadline as int, sequence)
    }
  }

  class TimerQueue {
    var heap: seq<TimerRegistration>
    var running: bool
    var accepting: bool
    var ownerThread: nat
    var nextSequence: nat
    var invariantFailures: nat

    ghost function Keys(): (keys: seq<Key>)
      reads this`heap, heap
      ensures |keys| == |heap|
    {
      var h := heap;
      seq(|h|, i requires 0 <= i < |h| reads h => h[i].Order())
    }

    ghost function Members(): set<TimerRegistration>
      reads this`heap
    {
      set r | r in heap
    }

    /** Every queued registration belongs to this queue and points at its own position. */
    ghost predicate Indexed()
      reads this`heap, heap`heapIndex, heap`owner
    {
      forall i :: 0 <= i < |heap| ==> heap[i].heapIndex == i && heap[i].owner == this
    }

    /** Sequence numbers are handed out once. */
    ghost predicate Sequenced()
      reads this`heap, this`nextSequence, heap`sequence, heap`hasCallback
    {
      && (forall r :: r in Members() ==> r.sequence < nextSequence && r.hasCallback)
      && forall r, s {:trigger r.sequence, s.sequence} :: r in Members() && s in Members() && r != s ==> r.sequence != s.sequence
    }

    ghost predicate Valid()
      reads this`heap, this`nextSequence, heap
    {
      Indexed() && Sequenced() && HeapOrdered(Keys())
    }

    /** A registration is queued here exactly when it names this queue as its owner. */
    ghost predicate Tracks(r: TimerRegistration)
      reads this`heap, r`owner, r`heapIndex
    {
      && (r.owner == this <==> r in heap)
      && (r.owner == null ==> r.heapIndex == NOT_IN_HEAP)
    }

    /** These registrations are used with this queue only. */
    ghost predicate Knows(registrations: seq<TimerRegistration>)
      reads this`heap, registrations`owner, registrations`heapIndex
    {
      forall i :: 0 <= i < |registrations| ==> Tracks(registrations[i]) && (registrations[i].owner == null || registrations[i].owner == this)
    }

    constructor ()
      ensures Valid() && heap == [] && !running && !accepting && nextSequence == 0
    {
      heap, running, accepting, ownerThread, nextSequence, invariantFailures := [], false, false, 0, 0, 0;
    }

    lemma MembersOwned()
      requires Indexed()
      ensures forall r :: r in Members() ==> r.owner == this && r in heap
    {
      forall r | r in Members() ensures r.owner == this {
        var i :| 0 <= i < |heap| && heap[i] == r;
      }
    }

    /** An idle queue is bound to the thread of its scheduler; `owned` says that the scheduler runs on this thread. */
    method Start(thread: nat, owned: bool) returns (ok: bool)
      modifies this`running, this`accepting, this`ownerThread, this`nextSequence, this`invariantFailures
      ensures ok <==> !old(running) && heap == [] && owned
      ensures ok ==> Valid() && running && accepting && ownerThread == thread
      ensures !ok ==> unchanged(this)
    {
      if running || heap != [] || !owned {
        return false;
      }
      ownerThread, nextSequence, invariantFailures := thread, 0, 0;
      running, accepting := true, true;
      ok := true;
    }

    predicate OnOwnerThread(caller: nat)
      reads this`running, this`ownerThread
    {
      running && ownerThread == caller
    }

    method SwapNodes(left: nat, right: nat)
      requires Indexed() && left < |heap| && right < |heap| && left != right
      modifies this`heap, heap`heapIndex
      ensures Indexed() && heap == old(heap)[left := old(heap[right])][right := old(heap[left])]
      ensures Keys() == Swapped(old(Keys()), left, right) && Members() == old(Members())
    {
      ghost var before := heap;
      heap := heap[left := heap[right]][right := heap[left]];
      assert forall r :: r in before ==> r in heap by {
        assert heap[left] == before[right] && heap[right] == before[left];
        assert forall i :: 0 <= i < |heap| && i != left && i != right ==> heap[i] == before[i];
      }
      heap[left].heapIndex := left;
      heap[right].heapIndex := right;
    }

    method SiftUp(start: nat)
      requires Indexed() && OrderedAbove(Keys(), start)
      modifies this`heap, heap`heapIndex
      ensures Indexed() && HeapOrdered(Keys()) && |heap| == |old(heap)| && Members() == old(Members())
    {
      var index: nat := start;
      while index != 0
        invariant Indexed() && OrderedAbove(Keys(), index) && |heap| == |old(heap)| && Members() == old(Members())
        invariant forall i :: 0 <= i < |heap| ==> heap[i] in old(heap)
      {
        var parent := (index - 1) / 2;
        if !Earlier(heap[index].Order(), heap[parent].Order()) {
          break;
        }
        SiftUpStep(Keys(), index);
        SwapNodes(index, parent);
        index := parent;
      }
      SiftUpDone(Keys(), index);
    }

    method EarliestChild(index: nat) returns (child: nat)
      requires index * 2 + 1 < |heap|
      ensures index < child < |heap| && Parent(child) == index
      ensures forall i :: 0 < i < |heap| && Parent(i) == index ==> !Earlier(Keys()[i], Keys()[child])
    {
      var left := index * 2 + 1;
      var right := left + 1;
      child := left;
      if right < |heap| && Earlier(heap[right].Order(), heap[left].Order()) {
        child := right;
      }
      assert forall i :: 0 < i < |heap| && Parent(i) == index ==> i == left || i == right;
    }

    /** Moves the key at `index` one level down, or reports that it is in place. */
    method SiftDownOnce(index: nat) returns (settled: bool, next: nat)
      requires Indexed() && OrderedBelow(Keys(), index)
      modifies this`heap, heap`heapIndex
      ensures Indexed() && |heap| == |old(heap)| && Members() == old(Members())
      ensures settled ==> HeapOrdered(Keys())
      ensures !settled ==> index < next < |heap| && OrderedBelow(Keys(), next)
    {
      if index * 2 + 1 >= |heap| {
        SiftDownDone(Keys(), index);
        return true, index;
      }
      next := EarliestChild(index);
      if !Earlier(heap[next].Order(), heap[index].Order()) {
        SiftDownDone(Keys(), index);
        return true, index;
      }
      SiftDownStep(Keys(), index, next);
      SwapNodes(index, next);
      settled := false;
    }

    method SiftDown(start: nat)
      requires Indexed() && OrderedBelow(Keys(), start)
      modifies this`heap, heap`heapIndex
      ensures Indexed() && HeapOrdered(Keys()) && |heap| == |old(heap)| && Members() == old(Members())
    {
      var index: nat, settled := start, false;
      while !settled
        invariant Indexed() && |heap| == |old(heap)| && Members() == old(Members())
        invariant if settled then HeapOrdered(Keys()) else OrderedBelow(Keys(), index)
        invariant forall i :: 0 <= i < |heap| ==> heap[i] in old(heap)
        decreases !settled, |heap| - index
      {
        settled, index := SiftDownOnce(index);
        assert forall i :: 0 <= i < |heap| ==> heap[i] in Members();
      }
    }

    /** Takes the registration at `index` out of the heap. */
    method Extract(index: nat)
      requires Indexed() && HeapOrdered(Keys()) && index < |heap|
      modifies this`heap, heap`heapIndex
      ensures Indexed() && HeapOrdered(Keys())
      ensures Members() == old(Members()) - {old(heap[index])} && |heap| == |old(heap)| - 1
    {
      ghost var before := Keys();
      var tail := heap[|heap| - 1];
      Distinct(heap);
      WithoutAt(heap, index);
      heap := heap[..|heap| - 1];
      if index < |heap| {
        heap := heap[index := tail];
        tail.heapIndex := index;
        assert Keys() == before[..|heap|][index := before[|heap|]];
        ReplaceByLast(before, index, Keys());
        if index != 0 && Earlier(heap[index].Order(), heap[(index - 1) / 2].Order()) {
          SiftUp(index);
        } else {
          SiftDown(index);
        }
      } else {
        assert Keys() == before[..|heap|];
        DropLast(before);
      }
    }

    lemma Distinct(s: seq<TimerRegistration>)
      requires forall i :: 0 <= i < |s| ==> s[i].heapIndex == i
      ensures NoRepeats(s)
    {
    }

    lemma WithoutAt(s: seq<TimerRegistration>, index: nat)
      requires index < |s| && NoRepeats(s)
      ensures var rest := s[..|s| - 1];
              var after := if index < |rest| then rest[index := s[|s| - 1]] else rest;
              (set r | r in after) == (set r | r in s) - {s[index]}
    {
      var rest := s[..|s| - 1];
      var after := if index < |rest| then rest[index := s[|s| - 1]] else rest;
      forall r | r in s && r != s[index] ensures r in after {
        var i :| 0 <= i < |s| && s[i] == r;
        assert i < |rest| ==> after[i] == r;
        assert i == |rest| ==> after[index] == r;
      }
    }

    /** Detaches the registration at `index`; every other one stays queued. */
    method RemoveAt(index: nat) returns (removed: TimerRegistration)
      requires Valid() && index < |heap|
      modifies this`heap, heap`heapIndex, heap`owner
      ensures Valid() && removed == old(heap[index]) && removed !in heap
      ensures Members() == old(Members()) - {removed} && |heap| == |old(heap)| - 1
      ensures removed.owner == null && removed.heapIndex == NOT_IN_HEAP
    {
      removed := heap[index];
      Extract(index);
      assert removed !in Members();
      removed.owner := null;
      removed.heapIndex := NOT_IN_HEAP;
    }

    method Arm(r: TimerRegistration, deadline: Ticks, hasCallback: bool, caller: nat) returns (result: ArmResult)
      requires Valid() && Tracks(r)
      modifies this`heap, this`nextSequence, r, heap`heapIndex
      ensures Valid()
      ensures result == if !running then NotRunning
                        else if ownerThread != caller then WrongThread
                        else if !accepting then Closed
                        else if old(r.owner) != null then AlreadyArmed
                        else if !hasCallback then InvalidCallback
                        else Armed
      ensures result != Armed ==> heap == old(heap) && unchanged(r) && nextSequence == old(nextSequence)
      ensures result == Armed ==>
                && Members() == old(Members()) + {r} && |heap| == |old(heap)| + 1
                && r.owner == this && r.deadline == deadline && r.sequence == old(nextSequence) < nextSequence
    {
      if !running {
        return NotRunning;
      }
      if !OnOwnerThread(caller) {
        return WrongThread;
      }
      if !accepting {
        return Closed;
      }
      if r.owner != null || r.heapIndex != NOT_IN_HEAP {
        return AlreadyArmed;
      }
      if !hasCallback {
        return InvalidCallback;
      }
      Enqueue(r, deadline);
      result := Armed;
    }

    method Enqueue(r: TimerRegistration, deadline: Ticks)
      requires Valid() && r !in heap
      modifies this`heap, this`nextSequence, r, heap`heapIndex
      ensures Valid() && Members() == old(Members()) + {r} && |heap| == |old(heap)| + 1
      ensures r.owner == this && r.deadline == deadline && r.sequence == old(nextSequence) < nextSequence
    {
      Append(r, deadline);
      SiftUp(|heap| - 1);
    }

    /** The registration takes the last place, and the next sequence number. */
    method Append(r: TimerRegistration, deadline: Ticks)
      requires Valid() && r !in heap
      modifies this`heap, this`nextSequence, r
      ensures Indexed() && Sequenced() && heap == old(heap) + [r] && OrderedAbove(Keys(), |heap| - 1) && Members() == old(Members()) + {r}
      ensures r.owner == this && r.deadline == deadline && r.sequence == old(nextSequence) < nextSequence
    {
      ghost var before := Keys();
      r.deadline := deadline;
      r.sequence := nextSequence;
      nextSequence := nextSequence + 1;
      var index := |heap|;
      heap := heap + [r];
      r.owner, r.heapIndex, r.hasCallback := this, index, true;
      assert Keys() == before + [r.Order()];
      AppendKey(before, r.Order());
    }

    /** The defensive branch of the program is never taken: an owned registration is where it says. */
    method Disarm(r: TimerRegistration, caller: nat) returns (ok: bool)
      requires Valid() && Tracks(r)
      modifies this`heap, heap`heapIndex, heap`owner, r`hasCallback
      ensures Valid()
      ensures ok <==> OnOwnerThread(caller) && old(r in heap)
      ensures ok ==> Members() == old(Members()) - {r} && r.owner == null && r.heapIndex == NOT_IN_HEAP && !r.hasCallback
      ensures !ok ==> heap == old(heap) && unchanged(r)
    {
      if !running || !OnOwnerThread(caller) || r.owner != this {
        return false;
      }
      var index := r.heapIndex;
      if index >= |heap| || heap[index] != r {
        assert false;
      }
      var removed := RemoveAt(index);
      r.hasCallback := false;
      ok := true;
    }

    /** Destruction of a registration: afterwards this queue does not refer to it. */
    method Abandon(r: TimerRegistration)
      requires Valid() && Tracks(r)
      modifies this`heap, heap`heapIndex, heap`owner, r`hasCallback
      ensures Valid()
      ensures r !in heap && r.owner != this && Members() == old(Members()) - {r}
    {
      if r.owner != this {
        return;
      }
      var index := r.heapIndex;
      if index >= |heap| || heap[index] != r {
        assert false;
      }
      var removed := RemoveAt(index);
      r.hasCallback := false;
    }

    /** The earliest registration is detached before its callback runs. */
    method CompleteFront(ghost accepts: TimerRegistration -> bool, accepted: bool) returns (front: TimerRegistration)
      requires Valid() && heap != [] && accepted == accepts(heap[0])
      modifies this`heap, this`invariantFailures, heap`heapIndex, heap`owner, heap`hasCallback
      ensures Valid() && front == old(heap[0]) && front !in heap
      ensures Members() == old(Members()) - {front} && |heap| == |old(heap)| - 1
      ensures front.owner == null && front.heapIndex == NOT_IN_HEAP && !front.hasCallback
      ensures forall r :: r in Members() ==> Earlier(front.Order(), r.Order())
      ensures invariantFailures == old(invariantFailures) + if accepts(front) then 0 else 1
    {
      FrontIsEarliest();
      front := RemoveAt(0);
      ghost var keys := Keys();
      front.hasCallback := false;
      assert Keys() == keys;
      if !accepted {
        invariantFailures := invariantFailures + 1;
      }
    }

    lemma FrontIsEarliest()
      requires Valid() && heap != []
      ensures forall r :: r in Members() && r != heap[0] ==> Earlier(heap[0].Order(), r.Order())
      ensures heap[0] in Members()
    {
      forall r | r in Members() && r != heap[0] ensures Earlier(heap[0].Order(), r.Order()) {
        var i :| 0 <= i < |heap| && heap[i] == r;
        RootIsEarliest(Keys(), i);
        assert heap[0] in Members();
      }
    }

    lemma FrontDecides(now: Ticks)
      requires Valid()
      ensures (heap != [] && heap[0].deadline <= now) <==> exists r :: r in Members() && r.deadline <= now
    {
      if heap != [] {
        FrontIsEarliest();
      }
    }

    ghost predicate Detached(r: TimerRegistration)
      reads r
    {
      r.owner == null && r.heapIndex == NOT_IN_HEAP && !r.hasCallback
    }

    /** How many of the callbacks of `fired` refused. */
    ghost function Refusals(fired: seq<TimerRegistration>, accepts: TimerRegistration -> bool): nat {
      if fired == [] then 0
      else Refusals(fired[..|fired| - 1], accepts) + if accepts(fired[|fired| - 1]) then 0 else 1
    }

    /**
     * `fired` left the queue in ascending order, each before everything that
     * is still queued, and nothing else left.
     */
    ghost predicate Dispatched(fired: seq<TimerRegistration>, before: set<TimerRegistration>)
      reads this`heap, fired, heap`deadline, heap`sequence
    {
      && (forall i, j :: 0 <= i < j < |fired| ==> Earlier(fired[i].Order(), fired[j].Order()))
      && (forall i, r :: 0 <= i < |fired| && r in Members() ==> Earlier(fired[i].Order(), r.Order()))
      && (forall i :: 0 <= i < |fired| ==> Detached(fired[i]))
      && (set r | r in fired) + Members() == before
    }

    method DispatchFront(ghost fired: seq<TimerRegistration>, ghost before: set<TimerRegistration>, accepts: TimerRegistration -> bool)
      returns (front: TimerRegistration, accepted: bool)
      requires Valid() && heap != [] && Dispatched(fired, before)
      modifies this`heap, this`invariantFailures, heap`heapIndex, heap`owner, heap`hasCallback
      ensures Valid() && front == old(heap[0]) && |heap| == |old(heap)| - 1 && Members() <= old(Members())
      ensures Dispatched(fired + [front], before) && accepted == accepts(front)
      ensures forall i :: 0 <= i < |heap| ==> heap[i] in old(heap)
    {
      FrontIsEarliest();
      accepted := accepts(heap[0]);
      front := CompleteFront(accepts, accepted);
      assert forall i :: 0 <= i < |fired| ==> Detached(fired[i]);
      OneMoreDispatched(fired, front, before);
      assert forall i :: 0 <= i < |heap| ==> heap[i] in Members();
    }

    lemma OneMoreRefusal(fired: seq<TimerRegistration>, front: TimerRegistration, accepts: TimerRegistration -> bool)
      ensures Refusals(fired + [front], accepts) == Refusals(fired, accepts) + if accepts(front) then 0 else 1
    {
      assert (fired + [front])[..|fired|] == fired;
    }

    lemma OneMoreDispatched(fired: seq<TimerRegistration>, front: TimerRegistration, before: set<TimerRegistration>)
      requires forall i, j :: 0 <= i < j < |fired| ==> Earlier(fired[i].Order(), fired[j].Order())
      requires forall i :: 0 <= i < |fired| ==> Detached(fired[i]) && Earlier(fired[i].Order(), front.Order())
      requires forall i, r :: 0 <= i < |fired| && r in Members() ==> Earlier(fired[i].Order(), r.Order())
      requires Detached(front) && forall r :: r in Members() ==> Earlier(front.Order(), r.Order())
      requires (set r | r in fired) + {front} + Members() == before
      ensures Dispatched(fired + [front], before)
    {
      assert (set r | r in fired + [front]) == (set r | r in fired) + {front};
    }

    method Expire(now: Ticks, budget: nat, caller: nat, accepts: TimerRegistration -> bool)
      returns (result: DispatchResult, fired: seq<TimerRegistration>)
      requires Valid()
      modifies this`heap, this`invariantFailures, heap`heapIndex, heap`owner, heap`hasCallback
      ensures Valid()
      ensures !OnOwnerThread(caller) ==> fired == [] && heap == old(heap) && result == DispatchResult(0, 0, false)
      ensures OnOwnerThread(caller) ==>
                && Dispatched(fired, old(Members()))
                && (forall i :: 0 <= i < |fired| ==> fired[i].deadline <= now)
                && result.dispatched == |fired| <= budget
                && result.scheduleFailures == Refusals(fired, accepts)
                && (result.hasDue <==> exists r :: r in Members() && r.deadline <= now)
                && (|fired| < budget ==> !result.hasDue)
    {
      if !OnOwnerThread(caller) {
        return DispatchResult(0, 0, false), [];
      }
      var failures;
      failures, fired := DispatchDue(now, budget, accepts);
      FrontDecides(now);
      result := DispatchResult(|fired|, failures, heap != [] && heap[0].deadline <= now);
    }

    ghost predicate WereDue(fired: seq<TimerRegistration>, now: Ticks)
      reads fired`deadline
    {
      forall i :: 0 <= i < |fired| ==> fired[i].deadline <= now
    }

    lemma OneMoreDue(fired: seq<TimerRegistration>, front: TimerRegistration, now: Ticks)
      requires WereDue(fired, now) && front.deadline <= now
      ensures WereDue(fired + [front], now)
    {
    }

    method DispatchNext(ghost fired: seq<TimerRegistration>, ghost before: set<TimerRegistration>, accepts: TimerRegistration -> bool,
                        ghost now: Ticks) returns (front: TimerRegistration, refusals: nat)
      requires Valid() && heap != [] && heap[0].deadline <= now && Dispatched(fired, before) && WereDue(fired, now)
      modifies this`heap, this`invariantFailures, heap`heapIndex, heap`owner, heap`hasCallback
      ensures Valid() && |heap| == |old(heap)| - 1 && Dispatched(fired + [front], before) && WereDue(fired + [front], now)
      ensures forall i :: 0 <= i < |heap| ==> heap[i] in old(heap)
      ensures Refusals(fired + [front], accepts) == Refusals(fired, accepts) + refusals
    {
      var accepted;
      front, accepted := DispatchFront(fired, before, accepts);
      OneMoreRefusal(fired, front, accepts);
      OneMoreDue(fired, front, now);
      refusals := if accepted then 0 else 1;
    }

    method DispatchDue(now: Ticks, budget: nat, accepts: TimerRegistration -> bool)
      returns (failures: nat, fired: seq<TimerRegistration>)
      requires Valid()
      modifies this`heap, this`invariantFailures, heap`heapIndex, heap`owner, heap`hasCallback
      ensures Valid() && Dispatched(fired, old(Members())) && |fired| <= budget && failures == Refusals(fired, accepts)
      ensures WereDue(fired, now)
      ensures |fired| < budget ==> heap == [] || heap[0].deadline > now
    {
      failures, fired := 0, [];
      while |fired| < budget && heap != [] && heap[0].deadline <= now
        invariant Valid() && Dispatched(fired, old(Members())) && |fired| <= budget && failures == Refusals(fired, accepts)
        invariant WereDue(fired, now)
        invariant forall i :: 0 <= i < |heap| ==> heap[i] in old(heap)
        decreases |heap|
      {
        var front, refusals := DispatchNext(fired, old(Members()), accepts, now);
        fired := fired + [front];
        failures := failures + refusals;
      }
    }

    /** Everything is dispatched, in order. */
    method CancelAll(caller: nat, accepts: TimerRegistration -> bool) returns (result: DispatchResult, fired: seq<TimerRegistration>)
      requires Valid()
      modifies this`heap, this`invariantFailures, heap`heapIndex, heap`owner, heap`hasCallback
      ensures Valid()
      ensures !OnOwnerThread(caller) ==> fired == [] && heap == old(heap) && result == DispatchResult(0, 0, false)
      ensures OnOwnerThread(caller) ==>
                && Dispatched(fired, old(Members())) && heap == []
                && result == DispatchResult(|old(heap)|, Refusals(fired, accepts), false)
    {
      fired := [];
      if !OnOwnerThread(caller) {
        return DispatchResult(0, 0, false), [];
      }
      var failures := 0;
      while heap != []
        invariant Valid() && Dispatched(fired, old(Members())) && |fired| + |heap| == |old(heap)|
        invariant failures == Refusals(fired, accepts)
        invariant forall i :: 0 <= i < |heap| ==> heap[i] in old(heap)
        decreases |heap|
      {
        var front, accepted := DispatchFront(fired, old(Members()), accepts);
        OneMoreRefusal(fired, front, accepts);
        fired := fired + [front];
        failures := failures + if accepted then 0 else 1;
      }
      result := DispatchResult(|fired|, failures, false);
    }

    /**
     * The wait in milliseconds, rounded up and cut at the largest int. None of
     * the subtractions leaves the clock's range.
     */
    method WaitTimeout(now: Ticks) returns (wait: int)
      requires Valid()
      ensures heap == [] ==> wait == -1
      ensures heap != [] ==>
                forall r :: r in Members() ==> wait as int <= RoundedWait(r.deadline as int - now as int)
      ensures heap != [] ==> exists r :: r in Members() && wait == RoundedWait(r.deadline as int - now as int)
    {
      if heap == [] {
        return -1;
      }
      FrontIsEarliest();
      var deadline := heap[0].deadline;
      forall r | r in Members() ensures RoundedWait(deadline as int - now as int) <= RoundedWait(r.deadline as int - now as int) {
        RoundedWaitMonotone(deadline as int - now as int, r.deadline as int - now as int);
      }
      if deadline <= now {
        return 0;
      }
      if now < 0 && deadline >= 0 && (deadline >= MAXIMUM_WAIT || now <= -MAXIMUM_WAIT) {
        return INT_MAX;
      }
      var remaining := deadline - now;
      if remaining >= MAXIMUM_WAIT {
        return INT_MAX;
      }
      var whole := remaining / NANOS_PER_MILLI;
      var rounded := (if whole * NANOS_PER_MILLI < remaining then whole + 1 else whole) as int;
      wait := if rounded >= INT_MAX then INT_MAX else rounded;
    }
  }

  const INT_MAX: int := 2147483647
  const NANOS_PER_MILLI: Ticks := 1_000_000
  const MAXIMUM_WAIT: Ticks := 2_147_483_647_000_000

  /** Milliseconds to wait for a deadline that is `nanos` away. */
  function RoundedWait(nanos: int): int {
    if nanos <= 0 then 0 else Min(INT_MAX, (nanos + 999_999) / 1_000_000)
  }

  /** The wait is the least number of milliseconds that reaches the deadline, cut at the largest there is. */
  lemma RoundedWaitExactly(nanos: int)
    ensures var w := RoundedWait(nanos);
            && 0 <= w <= 0x7FFF_FFFF && (w == 0 <==> nanos <= 0)
            && (nanos > 0 ==> (w - 1) * 1_000_000 < nanos) && (w < 0x7FFF_FFFF ==> nanos <= w * 1_000_000)
  {
  }

  lemma RoundedWaitMonotone(a: int, b: int)
    requires a <= b
    ensures RoundedWait(a) <= RoundedWait(b)
  {
  }
}
