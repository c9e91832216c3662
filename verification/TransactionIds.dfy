/** The pool of upstream transaction ids: free, pending, or quarantined after use. */
module TransactionIds {
  import opened Basics
  import Words
  import opened BinaryHeap
  import opened TimerQueue

  const ID_SPACE: nat := 65536

  const FIRST_TICK: Ticks := -0x8000_0000_0000_0000
  const LAST_TICK: Ticks := 0x7FFF_FFFF_FFFF_FFFF

  datatype IdState = Unavailable | Free | Pending | Retired

  datatype ChannelConfig = ChannelConfig(queryTimeout: Ticks, idReuseGuard: Ticks, capacity: nat, initialId: nat, randomize: bool)

  /** What the channel demands of its configuration. */
  predicate ValidConfig(c: ChannelConfig) {
    0 < c.queryTimeout <= c.idReuseGuard && 1 <= c.capacity <= ID_SPACE && c.initialId < ID_SPACE
  }

  /** When an id whose query ended at `now` may be used again. */
  function Guarded(now: int, guard: Ticks): int {
    if guard <= 0 then now else Min(LAST_TICK as int, now + guard as int)
  }

  /** A guard is over once its whole length has passed since the end, or when time can go no further. */
  lemma GuardPasses(ended: int, guard: Ticks, now: Ticks)
    requires guard > 0
    ensures Guarded(ended, guard) <= now as int <==> ended + guard as int <= now as int || now == LAST_TICK
  {
  }

  /** The free list names every free id once. */
  predicate FreeListed(ids: seq<nat>, states: seq<IdState>) {
    && NoRepeats(ids)
    && (forall i :: 0 <= i < |ids| ==> ids[i] < |states| && states[ids[i]] == Free)
    && (forall id :: 0 <= id < |states| && states[id] == Free ==> id in ids)
  }

  predicate Queued(retired: seq<Key>, id: nat) {
    exists k :: k in retired && k.tie == id
  }

  /** The quarantine is a heap that names every retired id once. */
  predicate RetiredListed(retired: seq<Key>, states: seq<IdState>) {
    && HeapOrdered(retired) && DistinctTies(retired)
    && (forall k :: k in retired ==> k.tie < |states| && states[k.tie] == Retired)
    && (forall id :: 0 <= id < |states| && states[id] == Retired ==> Queued(retired, id))
  }

  /** Pending ids hold a slot, or are reserved for a query that is about to hold one. */
  predicate PendingListed(slots: seq<Option<nat>>, states: seq<IdState>, reserved: set<nat>)
    requires |slots| == |states|
  {
    && (forall id {:trigger states[id]} :: 0 <= id < |states| ==> (states[id] == Pending <==> slots[id].Some? || id in reserved))
    && (forall id :: id in reserved ==> id < |slots| && slots[id].None?)
  }

  predicate InSpace(states: seq<IdState>, capacity: nat) {
    |states| == ID_SPACE && forall id :: 0 <= id < ID_SPACE ==> (states[id] != Unavailable <==> id < capacity)
  }

  /**
   * `endedAt` holds, for every id that was ever sent, when its last finished
   * query ended: the id is quarantined until the guard has passed.
   */
  predicate QuarantineKept(retired: seq<Key>, states: seq<IdState>, endedAt: map<nat, int>, guard: Ticks, clock: int) {
    && (forall k :: k in retired ==> k.tie in endedAt && k.at == Guarded(endedAt[k.tie], guard))
    && (forall id :: id in endedAt && id < |states| && states[id] != Retired ==> Guarded(endedAt[id], guard) <= clock)
  }

  class IdPool {
    var config: ChannelConfig
    var slots: seq<Option<nat>>
    var states: seq<IdState>
    var freeIds: seq<nat>
    var retired: seq<Key>
    var pendingCount: nat

    /** Ids between their allocation and the occupation of their slot, or between its release and their own. */
    ghost var reserved: set<nat>
    ghost var endedAt: map<nat, int>
    ghost var clock: int

    ghost predicate Valid()
      reads this
    {
      && ValidConfig(config) && |slots| == ID_SPACE && InSpace(states, config.capacity)
      && FreeListed(freeIds, states) && RetiredListed(retired, states) && PendingListed(slots, states, reserved)
      && |freeIds| + |retired| + pendingCount + |reserved| == config.capacity
      && QuarantineKept(retired, states, endedAt, config.idReuseGuard, clock)
    }

    /** No operation is under way. */
    ghost predicate Settled()
      reads this
    {
      Valid() && reserved == {}
    }

    constructor (config: ChannelConfig, order: seq<nat>)
      requires ValidConfig(config)
      requires |order| == config.capacity && NoRepeats(order) && forall i :: 0 <= i < |order| ==> order[i] < config.capacity
      ensures Settled() && pendingCount == 0 && retired == [] && this.config == config && endedAt == map[] && clock == FIRST_TICK as int
      ensures forall id :: 0 <= id < ID_SPACE ==> slots[id].None?
      ensures freeIds == if config.randomize then order else Countdown(config.initialId % config.capacity, config.capacity, config.capacity)
    {
      this.config := config;
      slots := seq(ID_SPACE, _ => None);
      retired := [];
      pendingCount := 0;
      reserved := {};
      endedAt := map[];
      clock := FIRST_TICK as int;
      states := seq(ID_SPACE, _ => Unavailable);
      freeIds := [];
      new;
      InitializeIdPool(order);
    }

    /** The free ids are the ids below the capacity, in a random or a rotated order. */
    method InitializeIdPool(order: seq<nat>)
      requires ValidConfig(config) && |order| == config.capacity && NoRepeats(order)
      requires forall i :: 0 <= i < |order| ==> order[i] < config.capacity
      requires |slots| == ID_SPACE && (forall id :: 0 <= id < ID_SPACE ==> slots[id].None?)
      requires pendingCount == 0 && reserved == {} && endedAt == map[]
      modifies this`states, this`freeIds, this`retired
      ensures Settled() && retired == []
      ensures freeIds == if config.randomize then order else Countdown(config.initialId % config.capacity, config.capacity, config.capacity)
    {
      retired := [];
      if config.randomize {
        freeIds := order;
      } else {
        var first := config.initialId % config.capacity;
        freeIds := Rotation(first, config.capacity);
        CountdownDistinct(first, config.capacity, config.capacity);
      }
      states := MarkFree(freeIds);
      AllListed(freeIds, config.capacity);
    }

    /** A freed id goes to the end of the free list, or to a random place of it. */
    method InsertFreeId(id: nat, pick: nat)
      modifies this`freeIds
      ensures freeIds == Inserted(old(freeIds), id, config.randomize, pick)
      ensures |freeIds| == |old(freeIds)| + 1
      ensures if config.randomize then freeIds[pick % |freeIds|] == id else freeIds == old(freeIds) + [id]
    {
      freeIds := freeIds + [id];
      if !config.randomize || |freeIds| < 2 {
        return;
      }
      var place := pick % |freeIds|;
      var last := |freeIds| - 1;
      freeIds := freeIds[last := freeIds[place]][place := freeIds[last]];
    }

    /** Every id whose guard has passed leaves the quarantine, and no other. */
    method ReclaimIds(now: Ticks, picks: nat -> nat)
      requires Valid() && clock <= now as int
      modifies this`states, this`freeIds, this`retired, this`clock
      ensures Valid() && clock == now as int
      ensures forall k :: k in retired <==> k in old(retired) && k.at > now as int
      ensures forall id :: 0 <= id < ID_SPACE ==>
                states[id] == if old(states)[id] == Retired && !Queued(retired, id) then Free else old(states)[id]
    {
      clock := now as int;
      while retired != [] && retired[0].at <= now as int
        invariant Valid() && clock == now as int
        invariant forall k :: k in retired ==> k in old(retired)
        invariant forall k :: k in old(retired) && k.at > now as int ==> k in retired
        invariant forall id :: 0 <= id < ID_SPACE ==>
                    states[id] == if old(states)[id] == Retired && !Queued(retired, id) then Free else old(states)[id]
        decreases |retired|
      {
        ReclaimFirst(picks(|retired|));
      }
      if retired != [] {
        forall k | k in retired ensures k.at > now as int {
          var i :| 0 <= i < |retired| && retired[i] == k;
          RootIsEarliest(retired, i);
        }
      }
    }

    /** The earliest quarantined id becomes free. */
    method ReclaimFirst(pick: nat)
      requires Valid() && retired != [] && retired[0].at <= clock
      modifies this`states, this`freeIds, this`retired
      ensures Valid() && |retired| == |old(retired)| - 1
      ensures forall k :: k in retired <==> k in old(retired) && k != old(retired)[0]
      ensures states == old(states)[old(retired)[0].tie := Free]
    {
      ghost var before := states;
      var first, rest := PopHeap(retired);
      var id := first.tie;
      assert first in retired;
      retired := rest;
      states := states[id := Free];
      InsertFreeId(id, pick);
      ReclaimKeeps(old(freeIds), freeIds, old(retired), rest, before, states, first, config.randomize, pick);
    }

    /** An id that is free, the last of the free list; its guard has passed. */
    method AllocateId(now: Ticks, picks: nat -> nat) returns (r: Option<nat>)
      requires Settled() && clock <= now as int
      modifies this`states, this`freeIds, this`retired, this`clock, this`reserved
      ensures Valid() && clock == now as int
      ensures r.None? <==> forall id :: 0 <= id < config.capacity ==>
                slots[id].Some? || (id in endedAt && now as int < endedAt[id] + config.idReuseGuard as int && now < LAST_TICK)
      ensures r.None? ==> reserved == {}
      ensures r.Some? ==> r.value < config.capacity && reserved == {r.value}
      ensures r.Some? ==> old(states)[r.value] in {Free, Retired} && states[r.value] == Pending
      ensures r.Some? && r.value in endedAt ==> endedAt[r.value] + config.idReuseGuard as int <= now as int || now == LAST_TICK
    {
      NotGivenExactly(now);
      ReclaimIds(now, picks);
      r := TakeFree();
    }

    /** An id is not to be had when it holds a slot, or its guard is not over. */
    lemma NotGivenExactly(now: Ticks)
      requires Settled() && clock <= now as int
      ensures forall id :: 0 <= id < config.capacity ==>
                (states[id] == Pending || (states[id] == Retired && exists k :: k in retired && k.tie == id && k.at > now as int) <==>
                 slots[id].Some? || (id in endedAt && now as int < endedAt[id] + config.idReuseGuard as int && now < LAST_TICK))
    {
      forall id | 0 <= id < config.capacity
        ensures states[id] == Pending || (states[id] == Retired && exists k :: k in retired && k.tie == id && k.at > now as int) <==>
                slots[id].Some? || (id in endedAt && now as int < endedAt[id] + config.idReuseGuard as int && now < LAST_TICK)
      {
        NotGiven(id, now);
      }
    }

    lemma NotGiven(id: nat, now: Ticks)
      requires Settled() && clock <= now as int && id < config.capacity
      ensures states[id] == Pending || (states[id] == Retired && exists k :: k in retired && k.tie == id && k.at > now as int) <==>
              slots[id].Some? || (id in endedAt && now as int < endedAt[id] + config.idReuseGuard as int && now < LAST_TICK)
    {
      if id in endedAt {
        GuardPasses(endedAt[id], config.idReuseGuard, now);
      }
      if states[id] == Retired {
        assert Queued(retired, id);
      }
    }

    /** The checks on the entry taken never fail, so the program's loop takes one entry at most. */
    method TakeFree() returns (r: Option<nat>)
      requires Settled()
      modifies this`states, this`freeIds, this`reserved
      ensures Valid()
      ensures r.None? <==> forall id :: 0 <= id < ID_SPACE ==> old(states)[id] != Free
      ensures r.None? ==> states == old(states) && reserved == {}
      ensures r.Some? ==> r.value < config.capacity && reserved == {r.value}
      ensures r.Some? ==> old(states)[r.value] == Free && states == old(states)[r.value := Pending]
      ensures r.Some? ==> old(freeIds) == freeIds + [r.value]
    {
      if freeIds == [] {
        return None;
      }
      var id := freeIds[|freeIds| - 1];
      freeIds := freeIds[..|freeIds| - 1];
      states := states[id := Pending];
      reserved := {id};
      return Some(id);
    }

    /** The reserved id gets its slot. */
    method Occupy(id: nat, query: nat)
      requires Valid() && reserved == {id}
      modifies this`slots, this`pendingCount, this`reserved
      ensures Settled() && slots == old(slots)[id := Some(query)] && pendingCount == old(pendingCount) + 1
    {
      slots := slots[id := Some(query)];
      pendingCount := pendingCount + 1;
      reserved := {};
    }

    /** An occupied slot is given up; its id is still to be released. */
    method Vacate(id: nat)
      requires Settled() && id < ID_SPACE && slots[id].Some?
      modifies this`slots, this`pendingCount, this`reserved
      ensures Valid() && reserved == {id} && id < config.capacity && pendingCount == old(pendingCount) - 1
      ensures slots == old(slots)[id := None]
    {
      assert states[id] == Pending;
      if pendingCount == 0 {
        NoneOutside(freeIds, retired, slots, states, config.capacity, id);
      }
      slots := slots[id := None];
      pendingCount := pendingCount - 1;
      reserved := {id};
    }

    /** A reserved id is quarantined when its query was sent, and free again when it was not. */
    method ReleaseId(id: nat, now: Ticks, quarantine: bool, pick: nat)
      requires Valid() && reserved == {id} && clock <= now as int
      modifies this`states, this`freeIds, this`retired, this`reserved, this`endedAt, this`clock
      ensures Settled() && clock == now as int
      ensures states == old(states)[id := if quarantine then Retired else Free]
      ensures endedAt == if quarantine then old(endedAt)[id := now as int] else old(endedAt)
      ensures forall k :: k in retired <==>
                k in old(retired) || (quarantine && k == Key(Min(LAST_TICK as int, now as int + config.idReuseGuard as int), id))
    {
      if !quarantine || config.idReuseGuard <= 0 {
        FreeReserved(id, now, pick);
      } else {
        RetireReserved(id, now);
      }
    }

    method FreeReserved(id: nat, now: Ticks, pick: nat)
      requires Valid() && reserved == {id} && clock <= now as int
      modifies this`states, this`freeIds, this`reserved, this`clock
      ensures Settled() && clock == now as int && states == old(states)[id := Free]
    {
      clock := now as int;
      assert states[id] == Pending;
      reserved := {};
      ghost var before, was := freeIds, states;
      states := states[id := Free];
      InsertFreeId(id, pick);
      FreeKeeps(before, freeIds, was, states, retired, id, config.randomize, pick);
    }

    method RetireReserved(id: nat, now: Ticks)
      requires Valid() && reserved == {id} && clock <= now as int && config.idReuseGuard > 0
      modifies this`states, this`retired, this`reserved, this`endedAt, this`clock
      ensures Settled() && clock == now as int && states == old(states)[id := Retired] && endedAt == old(endedAt)[id := now as int]
      ensures forall k :: k in retired <==> k in old(retired) || k == Key(Guarded(now as int, config.idReuseGuard), id)
    {
      clock := now as int;
      assert states[id] == Pending;
      reserved := {};
      ghost var was, before := states, retired;
      states := states[id := Retired];
      var reusableAt := GuardedReuseTime(now);
      retired := PushHeap(retired, Key(reusableAt as int, id));
      endedAt := endedAt[id := now as int];
      RetireKeeps(freeIds, was, states, before, retired, Key(reusableAt as int, id));
    }

    /** The guard ends at the last representable tick at the latest. */
    method GuardedReuseTime(now: Ticks) returns (at: Ticks)
      ensures at as int == Guarded(now as int, config.idReuseGuard)
      ensures config.idReuseGuard > 0 ==> at as int == Min(0x7FFF_FFFF_FFFF_FFFF, now as int + config.idReuseGuard as int)
    {
      var guard := config.idReuseGuard;
      if guard <= 0 {
        return now;
      }
      if now > 0 && guard > LAST_TICK - now {
        return LAST_TICK;
      }
      at := now + guard;
    }

    /** The audit of an idle pool never finds a fault. */
    method ValidateIdPool() returns (ok: bool)
      requires Settled()
      ensures ok <==> pendingCount == 0
    {
      var capacity := config.capacity;
      if capacity == 0 || capacity > ID_SPACE || pendingCount != 0 || |freeIds| + |retired| != capacity {
        return false;
      }
      IdleSlots(freeIds, retired, slots, states, capacity);
      IdleAudit(freeIds, retired, slots, states, capacity);
      if !HeapOrdered(retired) {
        return false;
      }
      var seen;
      ok, seen := AuditList(freeIds, states, slots, capacity, Free, {});
      if !ok {
        return;
      }
      ok, seen := AuditList(Ties(retired), states, slots, capacity, Retired, seen);
      if !ok {
        return;
      }
      ok := AuditStates(states, slots, capacity, seen);
      ok := ok && |seen| == capacity;
    }
  }

  /** Every id of a list is below the capacity, carries the mark of the list, holds no slot and is listed once. */
  predicate ListSound(ids: seq<nat>, states: seq<IdState>, slots: seq<Option<nat>>, capacity: nat, mark: IdState, others: set<nat>)
    requires |states| == |slots| == ID_SPACE && capacity <= ID_SPACE
  {
    && NoRepeats(ids)
    && forall i :: 0 <= i < |ids| ==> ids[i] < capacity && states[ids[i]] == mark && slots[ids[i]].None? && ids[i] !in others
  }

  method AuditList(ids: seq<nat>, states: seq<IdState>, slots: seq<Option<nat>>, capacity: nat, mark: IdState, others: set<nat>)
    returns (ok: bool, seen: set<nat>)
    requires |states| == |slots| == ID_SPACE && capacity <= ID_SPACE
    ensures ok <==> ListSound(ids, states, slots, capacity, mark, others)
    ensures ok ==> seen == others + Elements(ids)
  {
    seen := others;
    for k := 0 to |ids|
      invariant ListSound(ids[..k], states, slots, capacity, mark, others) && seen == others + Elements(ids[..k])
    {
      var id := ids[k];
      if id >= capacity || id in seen || states[id] != mark || slots[id].Some? {
        return false, {};
      }
      seen := seen + {id};
      assert ids[..k + 1] == ids[..k] + [id];
    }
    assert ids[..|ids|] == ids;
    ok := true;
  }

  method AuditStates(states: seq<IdState>, slots: seq<Option<nat>>, capacity: nat, seen: set<nat>) returns (ok: bool)
    requires |states| == |slots| == ID_SPACE && capacity <= ID_SPACE
    ensures ok <==> forall id :: 0 <= id < ID_SPACE ==>
              slots[id].None? && if id >= capacity then states[id] == Unavailable else id in seen && states[id] != Pending
  {
    for id := 0 to ID_SPACE
      invariant forall i :: 0 <= i < id ==>
                  slots[i].None? && if i >= capacity then states[i] == Unavailable else i in seen && states[i] != Pending
    {
      if id >= capacity {
        if states[id] != Unavailable || slots[id].Some? {
          return false;
        }
        continue;
      }
      if id !in seen || states[id] == Pending || slots[id].Some? {
        return false;
      }
    }
    ok := true;
  }

  /** Every question of the audit has the expected answer in an idle pool. */
  lemma IdleAudit(freeIds: seq<nat>, retired: seq<Key>, slots: seq<Option<nat>>, states: seq<IdState>, capacity: nat)
    requires FreeListed(freeIds, states) && RetiredListed(retired, states) && InSpace(states, capacity) && capacity <= ID_SPACE
    requires |slots| == |states| && |freeIds| + |retired| == capacity
    requires forall id :: 0 <= id < ID_SPACE ==> states[id] != Pending && slots[id].None?
    ensures ListSound(freeIds, states, slots, capacity, Free, {})
    ensures ListSound(Ties(retired), states, slots, capacity, Retired, Elements(freeIds))
    ensures forall id :: 0 <= id < capacity ==> id in Elements(freeIds) + Elements(Ties(retired))
    ensures |Elements(freeIds) + Elements(Ties(retired))| == capacity
  {
    forall i | 0 <= i < |retired| ensures states[Ties(retired)[i]] == Retired && Ties(retired)[i] < |states| {
      assert retired[i] in retired;
    }
    forall id | 0 <= id < capacity ensures id in Elements(freeIds) + Elements(Ties(retired)) {
      SeenAll(freeIds, retired, states, id);
    }
    ElementsCount(freeIds);
    ElementsCount(Ties(retired));
    assert Elements(freeIds) !! Elements(Ties(retired));
  }

  function Ties(keys: seq<Key>): (r: seq<nat>)
    ensures |r| == |keys| && forall i :: 0 <= i < |keys| ==> r[i] == keys[i].tie
  {
    seq(|keys|, i requires 0 <= i < |keys| => keys[i].tie)
  }

  lemma TiesOf(keys: seq<Key>, id: nat)
    ensures id in Ties(keys) <==> Queued(keys, id)
  {
    if id in Ties(keys) {
      var i :| 0 <= i < |keys| && Ties(keys)[i] == id;
      assert keys[i] in keys;
    }
    if Queued(keys, id) {
      var k :| k in keys && k.tie == id;
      var i :| 0 <= i < |keys| && keys[i] == k;
      assert Ties(keys)[i] == id;
    }
  }

  lemma SeenAll(freeIds: seq<nat>, retired: seq<Key>, states: seq<IdState>, id: nat)
    requires FreeListed(freeIds, states) && RetiredListed(retired, states) && id < |states|
    ensures states[id] in {Free, Retired} ==> id in Elements(freeIds) + Elements(Ties(retired))
  {
    TiesOf(retired, id);
  }

  /** An id that is neither free nor retired leaves room for itself in the count. */
  lemma NoneOutside(freeIds: seq<nat>, retired: seq<Key>, slots: seq<Option<nat>>, states: seq<IdState>, capacity: nat, id: nat)
    requires FreeListed(freeIds, states) && RetiredListed(retired, states) && InSpace(states, capacity) && id < capacity <= ID_SPACE
    requires states[id] == Pending
    ensures |freeIds| + |retired| < capacity
  {
    var ids := freeIds + Ties(retired);
    ListedOnce(freeIds, retired, states, capacity, ids);
    assert Elements(ids) <= Range(capacity) - {id};
    Smaller(Elements(ids), Range(capacity) - {id});
  }

  /** The two lists together name each of their ids once, and none that is pending. */
  lemma ListedOnce(freeIds: seq<nat>, retired: seq<Key>, states: seq<IdState>, capacity: nat, ids: seq<nat>)
    requires FreeListed(freeIds, states) && RetiredListed(retired, states) && InSpace(states, capacity) && ids == freeIds + Ties(retired)
    ensures |Elements(ids)| == |freeIds| + |retired|
    ensures forall id :: id in Elements(ids) ==> id < capacity && id < |states| && states[id] in {Free, Retired}
  {
    forall i, j | 0 <= i < j < |ids| ensures ids[i] != ids[j] {
      assert j >= |freeIds| ==> retired[j - |freeIds|] in retired;
    }
    forall i | 0 <= i < |ids| ensures ids[i] < capacity && ids[i] < |states| && states[ids[i]] in {Free, Retired} {
      assert i >= |freeIds| ==> retired[i - |freeIds|] in retired;
    }
    ElementsCount(ids);
  }

  lemma Smaller(s: set<nat>, t: set<nat>)
    requires s <= t
    ensures |s| <= |t|
  {
    assert |t - s| == |t| - |s|;
  }

  /** When no slot is held, the two lists hold every id. */
  lemma NothingPending(freeIds: seq<nat>, retired: seq<Key>, slots: seq<Option<nat>>, states: seq<IdState>, capacity: nat)
    requires FreeListed(freeIds, states) && RetiredListed(retired, states) && InSpace(states, capacity) && capacity <= ID_SPACE
    requires |slots| == |states| && PendingListed(slots, states, {}) && forall id :: 0 <= id < capacity ==> slots[id].None?
    ensures |freeIds| + |retired| >= capacity
  {
    forall id | id in Range(capacity) ensures id in Elements(freeIds) + Elements(Ties(retired)) {
      assert states[id] in {Free, Retired};
      SeenAll(freeIds, retired, states, id);
    }
    Smaller(Range(capacity), Elements(freeIds) + Elements(Ties(retired)));
    forall i, j | 0 <= i < j < |retired| ensures Ties(retired)[i] != Ties(retired)[j] {
    }
    ElementsCount(freeIds);
    ElementsCount(Ties(retired));
  }

  /** The ids that hold a slot. */
  function Holding(slots: seq<Option<nat>>): set<nat> {
    set id: nat | id < |slots| && slots[id].Some?
  }

  /** What is neither free nor in quarantine holds a slot: the three parts make up the capacity. */
  lemma HoldingCounted(freeIds: seq<nat>, retired: seq<Key>, slots: seq<Option<nat>>, states: seq<IdState>, capacity: nat)
    requires FreeListed(freeIds, states) && RetiredListed(retired, states) && InSpace(states, capacity) && capacity <= ID_SPACE
    requires |slots| == |states| && PendingListed(slots, states, {})
    ensures |freeIds| + |retired| + |Holding(slots)| == capacity
  {
    var ids := freeIds + Ties(retired);
    ListedOnce(freeIds, retired, states, capacity, ids);
    forall id | id in Range(capacity) ensures id in Elements(ids) + Holding(slots) {
      if states[id] != Pending {
        SeenAll(freeIds, retired, states, id);
        assert Elements(ids) == Elements(freeIds) + Elements(Ties(retired));
      }
    }
    forall id | id in Holding(slots) ensures id in Range(capacity) && id !in Elements(ids) {
      assert states[id] == Pending;
    }
    assert Elements(ids) + Holding(slots) == Range(capacity);
  }

  lemma IdleSlots(freeIds: seq<nat>, retired: seq<Key>, slots: seq<Option<nat>>, states: seq<IdState>, capacity: nat)
    requires FreeListed(freeIds, states) && RetiredListed(retired, states) && InSpace(states, capacity) && capacity <= ID_SPACE
    requires |slots| == |states| && PendingListed(slots, states, {}) && |freeIds| + |retired| == capacity
    ensures forall id :: 0 <= id < ID_SPACE ==> states[id] != Pending && slots[id].None?
  {
    forall id: nat | id < ID_SPACE ensures states[id] != Pending && slots[id].None? {
      if states[id] == Pending {
        NoneOutside(freeIds, retired, slots, states, capacity, id);
      }
    }
  }

  lemma FreeKeeps(freeIds: seq<nat>, freeAfter: seq<nat>, states: seq<IdState>, after: seq<IdState>, retired: seq<Key>, id: nat,
                  randomize: bool, pick: nat)
    requires FreeListed(freeIds, states) && RetiredListed(retired, states) && id < |states| && states[id] == Pending
    requires after == states[id := Free] && freeAfter == Inserted(freeIds, id, randomize, pick)
    ensures FreeListed(freeAfter, after) && RetiredListed(retired, after) && |freeAfter| == |freeIds| + 1
  {
    InsertedElements(freeIds, id, randomize, pick, freeAfter);
    forall i | 0 <= i < |freeAfter| ensures freeAfter[i] < |after| && after[freeAfter[i]] == Free {
      assert freeAfter[i] in freeAfter;
    }
  }

  lemma RetireKeeps(freeIds: seq<nat>, states: seq<IdState>, after: seq<IdState>, retired: seq<Key>, retiredAfter: seq<Key>, key: Key)
    requires FreeListed(freeIds, states) && RetiredListed(retired, states) && key.tie < |states| && states[key.tie] == Pending
    requires after == states[key.tie := Retired] && HeapOrdered(retiredAfter) && DistinctTies(retiredAfter)
    requires forall k :: k in retiredAfter <==> k in retired || k == key
    ensures FreeListed(freeIds, after) && RetiredListed(retiredAfter, after)
  {
    forall id | 0 <= id < |after| && after[id] == Retired ensures Queued(retiredAfter, id) {
      if id == key.tie {
        assert key in retiredAfter;
      } else {
        var k :| k in retired && k.tie == id;
        assert k in retiredAfter;
      }
    }
  }

  function Inserted(ids: seq<nat>, id: nat, randomize: bool, pick: nat): seq<nat> {
    var all := ids + [id];
    if !randomize || |all| < 2 then all
    else
      var place, last := pick % |all|, |all| - 1;
      all[last := all[place]][place := all[last]]
  }

  lemma InsertedElements(ids: seq<nat>, id: nat, randomize: bool, pick: nat, after: seq<nat>)
    requires NoRepeats(ids) && id !in ids && after == Inserted(ids, id, randomize, pick)
    ensures NoRepeats(after) && |after| == |ids| + 1 && forall x :: x in after <==> x in ids || x == id
  {
    var all := ids + [id];
    if randomize && |all| >= 2 {
      var place, last := pick % |all|, |all| - 1;
      forall x | x in all ensures x in after {
        var n :| 0 <= n < |all| && all[n] == x;
        assert after[last] == all[place] && after[place] == all[last] && (n != place && n != last ==> after[n] == x);
      }
    }
  }

  lemma ReclaimKeeps(freeIds: seq<nat>, freeAfter: seq<nat>, retired: seq<Key>, rest: seq<Key>, states: seq<IdState>, after: seq<IdState>,
                     first: Key, randomize: bool, pick: nat)
    requires FreeListed(freeIds, states) && RetiredListed(retired, states) && first in retired && after == states[first.tie := Free]
    requires HeapOrdered(rest) && DistinctTies(rest) && (forall k :: k in rest <==> k in retired && k != first)
    requires freeAfter == Inserted(freeIds, first.tie, randomize, pick)
    ensures FreeListed(freeAfter, after) && RetiredListed(rest, after) && |freeAfter| == |freeIds| + 1
  {
    var id := first.tie;
    InsertedElements(freeIds, id, randomize, pick, freeAfter);
    forall i | 0 <= i < |freeAfter| ensures freeAfter[i] < |after| && after[freeAfter[i]] == Free {
      assert freeAfter[i] in freeAfter;
    }
    forall k | k in rest ensures k.tie != id {
      var m, n :| 0 <= m < |retired| && retired[m] == k && 0 <= n < |retired| && retired[n] == first;
    }
    forall x | 0 <= x < |after| && after[x] == Retired ensures Queued(rest, x) {
      var k :| k in retired && k.tie == x;
      assert k in rest;
    }
  }

  /** The ids from first + count - 1 down to first, modulo the capacity. */
  function Countdown(first: nat, count: nat, capacity: nat): (r: seq<nat>)
    requires first < capacity && count <= capacity
    ensures |r| == count && forall i :: 0 <= i < count ==> r[i] < capacity
  {
    seq(count, i requires 0 <= i < count => (first + (count - i) - 1) % capacity)
  }

  method Rotation(first: nat, capacity: nat) returns (ids: seq<nat>)
    requires first < capacity
    ensures ids == Countdown(first, capacity, capacity)
  {
    ids := [];
    var remaining := capacity;
    while remaining != 0
      invariant 0 <= remaining <= capacity && ids == Countdown(first, capacity, capacity)[..capacity - remaining]
    {
      ids := ids + [(first + remaining - 1) % capacity];
      remaining := remaining - 1;
    }
  }

  lemma WrapOnce(x: nat, capacity: nat)
    requires x < 2 * capacity
    ensures x % capacity == if x < capacity then x else x - capacity
  {
    Words.RemainderUnique(x, capacity, One(x >= capacity), if x < capacity then x else x - capacity);
  }

  lemma CountdownDistinct(first: nat, count: nat, capacity: nat)
    requires first < capacity && count <= capacity
    ensures NoRepeats(Countdown(first, count, capacity))
  {
    var r := Countdown(first, count, capacity);
    forall i, j | 0 <= i < j < |r| ensures r[i] != r[j] {
      WrapOnce(first + (count - i) - 1, capacity);
      WrapOnce(first + (count - j) - 1, capacity);
    }
  }

  method MarkFree(ids: seq<nat>) returns (states: seq<IdState>)
    requires forall i :: 0 <= i < |ids| ==> ids[i] < ID_SPACE
    ensures |states| == ID_SPACE && forall id :: 0 <= id < ID_SPACE ==> states[id] == if id in ids then Free else Unavailable
  {
    states := seq(ID_SPACE, _ => Unavailable);
    for k := 0 to |ids|
      invariant |states| == ID_SPACE
      invariant forall id :: 0 <= id < ID_SPACE ==> states[id] == if id in ids[..k] then Free else Unavailable
    {
      states := states[ids[k] := Free];
      assert ids[..k + 1] == ids[..k] + [ids[k]];
    }
    assert ids[..|ids|] == ids;
  }

  // ------------------------------------------------------- counting

  function Range(n: nat): (r: set<nat>)
    ensures |r| == n && forall i: nat :: i in r <==> i < n
  {
    if n == 0 then {} else
      var below := Range(n - 1);
      assert n - 1 !in below;
      below + {n - 1}
  }

  function Elements(ids: seq<nat>): set<nat> {
    set id | id in ids
  }

  lemma {:induction false} ElementsCount(ids: seq<nat>)
    requires NoRepeats(ids)
    ensures |Elements(ids)| == |ids|
  {
    if ids != [] {
      var front, last := ids[..|ids| - 1], ids[|ids| - 1];
      ElementsCount(front);
      assert Elements(ids) == Elements(front) + {last};
    }
  }

  /** As many distinct ids below the capacity as there are: all of them. */
  lemma AllListed(ids: seq<nat>, capacity: nat)
    requires NoRepeats(ids) && |ids| == capacity && forall i :: 0 <= i < |ids| ==> ids[i] < capacity
    ensures forall id: nat :: id < capacity ==> id in ids
  {
    ElementsCount(ids);
    SubsetFull(Elements(ids), Range(capacity));
    forall id: nat | id < capacity ensures id in ids {
      assert id in Range(capacity) && id in Elements(ids);
    }
  }

  lemma SubsetFull(s: set<nat>, t: set<nat>)
    requires s <= t && |s| == |t|
    ensures s == t
  {
    assert |t - s| == |t| - |s|;
  }
}
