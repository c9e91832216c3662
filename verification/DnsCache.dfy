/** The bounded address cache of one worker, with CLOCK replacement, and its division into shards. */
module DnsCache {
  import opened Basics
  import Words
  import opened Wire
  import opened CachePolicy

  /** Clock ticks are nanoseconds. */
  const TICKS_PER_SECOND: int := 1_000_000_000

  datatype CacheKey = CacheKey(qname: seq<Byte>, qtype: U16, qclass: U16)

  datatype Entry = Entry(key: CacheKey, addresses: seq<IPAddress>, expiry: int, chance: bool)

  /** What was last stored for a key, and when. */
  datatype Stored = Stored(addresses: seq<IPAddress>, ttl: U32, at: int)

  function Expiry(s: Stored): int {
    s.at + s.ttl * TICKS_PER_SECOND
  }

  type Slots = seq<Option<Entry>>

  /** The index and the occupied slots are in bijection. */
  predicate Indexed(entries: Slots, index: map<CacheKey, nat>) {
    && (forall k :: k in index ==> index[k] < |entries| && entries[index[k]].Some? && entries[index[k]].value.key == k)
    && (forall i :: 0 <= i < |entries| && entries[i].Some? ==> entries[i].value.key in index && index[entries[i].value.key] == i)
  }

  /** Every occupied slot holds the last put for its key. */
  predicate Current(entries: Slots, history: map<CacheKey, Stored>) {
    forall i :: 0 <= i < |entries| && entries[i].Some? ==>
      && entries[i].value.key in history
      && entries[i].value.addresses == history[entries[i].value.key].addresses
      && entries[i].value.expiry == Expiry(history[entries[i].value.key])
  }

  // ------------------------------------------------------- size

  function KeysOf(entries: Slots): (keys: set<CacheKey>)
    ensures |keys| <= |entries|
    ensures forall i :: 0 <= i < |entries| && entries[i].Some? ==> entries[i].value.key in keys
  {
    if entries == [] then {}
    else
      var front, last := entries[..|entries| - 1], entries[|entries| - 1];
      assert forall i :: 0 <= i < |front| ==> front[i] == entries[i];
      if last.Some? then KeysOf(front) + {last.value.key} else KeysOf(front)
  }

  /** The cache never holds more keys than it has slots. */
  lemma SizeBounded(entries: Slots, index: map<CacheKey, nat>)
    requires Indexed(entries, index)
    ensures |index| <= |entries|
  {
    var keys := KeysOf(entries);
    assert index.Keys <= keys;
    assert |keys - index.Keys| == |keys| - |index.Keys|;
  }

  // ------------------------------------------------------- the clock hand

  /** A slot that may be taken: empty, expired or not used since the hand last passed. */
  predicate Replaceable(slot: Option<Entry>, now: int) {
    slot.None? || now >= slot.value.expiry || !slot.value.chance
  }

  /** How far the hand has to move from `hand` to reach slot `i`. */
  function Distance(hand: nat, i: nat, capacity: nat): nat
    requires hand < capacity && i < capacity
  {
    if i >= hand then i - hand else i + capacity - hand
  }

  function Cleared(slot: Option<Entry>): Option<Entry> {
    if slot.Some? then Some(slot.value.(chance := false)) else None
  }

  /** The slots after the hand has moved `steps` places. */
  function Swept(entries: Slots, hand: nat, steps: nat): (r: Slots)
    requires hand < |entries|
    ensures |r| == |entries|
  {
    seq(|entries|, i requires 0 <= i < |entries| => if Distance(hand, i, |entries|) < steps then Cleared(entries[i]) else entries[i])
  }

  /** The first replaceable slot cyclically from `hand`, or `hand` itself when there is none. */
  predicate IsVictim(entries: Slots, hand: nat, now: int, victim: nat)
    requires hand < |entries|
  {
    && victim < |entries|
    && if Replaceable(entries[victim], now) then
         forall i :: 0 <= i < |entries| && Distance(hand, i, |entries|) < Distance(hand, victim, |entries|) ==> !Replaceable(entries[i], now)
       else victim == hand && forall i :: 0 <= i < |entries| ==> !Replaceable(entries[i], now)
  }

  /** How many slots the hand passes before it stops at the victim. */
  function Passed(entries: Slots, hand: nat, now: int, victim: nat): nat
    requires hand < |entries| && victim < |entries|
  {
    if Replaceable(entries[victim], now) then Distance(hand, victim, |entries|) else |entries|
  }

  lemma VictimUnique(entries: Slots, hand: nat, now: int, a: nat, b: nat)
    requires hand < |entries| && IsVictim(entries, hand, now, a) && IsVictim(entries, hand, now, b)
    ensures a == b
  {
  }

  lemma StepForward(hand: nat, steps: nat, capacity: nat)
    requires hand < capacity && steps < capacity
    ensures ((hand + steps) % capacity + 1) % capacity == (hand + steps + 1) % capacity
    ensures (hand + steps) % capacity == if hand + steps < capacity then hand + steps else hand + steps - capacity
    ensures (hand + steps + 1) % capacity == if hand + steps + 1 < capacity then hand + steps + 1 else hand + steps + 1 - capacity
  {
    Wrap(hand + steps, capacity);
    Wrap(hand + steps + 1, capacity);
    Wrap((hand + steps) % capacity + 1, capacity);
  }

  lemma Wrap(x: nat, capacity: nat)
    requires 0 < capacity && x <= 2 * capacity
    ensures x < capacity ==> x % capacity == x
    ensures capacity <= x < 2 * capacity ==> x % capacity == x - capacity
    ensures x == 2 * capacity ==> x % capacity == 0
  {
    if x < capacity {
      Words.RemainderUnique(x, capacity, 0, x);
    } else if x < 2 * capacity {
      Words.RemainderUnique(x, capacity, 1, x - capacity);
    } else {
      Words.RemainderUnique(x, capacity, 2, 0);
    }
  }

  /** The slots after an entry was put at `at`: others change only when a full cache is swept. */
  ghost function Stocked(entries: Slots, hand: nat, now: int, known: bool, capacity: nat, at: nat, entry: Entry): Slots {
    if !known && |entries| < capacity then entries + [Some(entry)]
    else if at >= |entries| then []
    else if known || hand >= |entries| then entries[at := Some(entry)]
    else Swept(entries, hand, Passed(entries, hand, now, at))[at := Some(entry)]
  }

  class CacheShard {
    const capacity: nat
    var hand: nat
    var entries: Slots
    var index: map<CacheKey, nat>

    /** The last put for every key, with removals applied. */
    ghost var history: map<CacheKey, Stored>

    ghost predicate Valid()
      reads this
    {
      && |entries| <= capacity && (capacity > 0 ==> hand < capacity)
      && Indexed(entries, index) && Current(entries, history)
    }

    constructor (capacity: nat)
      ensures Valid() && this.capacity == capacity && index == map[] && history == map[]
    {
      this.capacity := capacity;
      hand, entries, index, history := 0, [], map[], map[];
    }

    /** A hit is the last put for the key, strictly before its expiry, with the remaining seconds rounded up. */
    method Get(key: CacheKey, now: int) returns (r: Option<AddressSet>)
      requires Valid()
      modifies this`entries, this`index
      ensures Valid()
      ensures r.Some? <==> key in old(index) && now < history[key].at + history[key].ttl * TICKS_PER_SECOND
      ensures r.Some? ==>
                && r.value.addresses == history[key].addresses && 1 <= r.value.ttl
                && now + (r.value.ttl - 1) * TICKS_PER_SECOND < history[key].at + history[key].ttl * TICKS_PER_SECOND
                && (history[key].at <= now ==>
                      && r.value.ttl <= history[key].ttl
                      && history[key].at + history[key].ttl * TICKS_PER_SECOND <= now + r.value.ttl * TICKS_PER_SECOND)
      ensures index == if r.Some? then old(index) else old(index) - {key}
      ensures r.Some? ==> entries == old(entries)[index[key] := Some(old(entries)[index[key]].value.(chance := true))]
      ensures |entries| == |old(entries)|
      ensures forall i :: 0 <= i < |entries| && !(key in old(index) && i == old(index)[key]) ==> entries[i] == old(entries)[i]
    {
      if key !in index {
        return None;
      }
      var at := index[key];
      var entry := entries[at].value;
      if now >= entry.expiry {
        index := index - {key};
        entries := entries[at := None];
        return None;
      }
      entries := entries[at := Some(entry.(chance := true))];
      var remaining := CeilSeconds(entry.expiry - now);
      r := Some(AddressSet(entry.addresses, if remaining > MAX_TTL then MAX_TTL else remaining));
      TtlBound(history[key], now, remaining);
    }

    /** Removes a key, if it is there. */
    method Remove(key: CacheKey)
      requires Valid()
      modifies this`entries, this`index, this`history
      ensures Valid() && index == old(index) - {key} && history == old(history) - {key}
      ensures |entries| == |old(entries)|
      ensures forall i :: 0 <= i < |entries| && !(key in old(index) && i == old(index)[key]) ==> entries[i] == old(entries)[i]
    {
      if key in index {
        entries := entries[index[key] := None];
        index := index - {key};
      }
      history := history - {key};
    }

    /**
     * Moves the hand to the victim, taking the second chance of every slot it
     * passes; it passes no slot twice.
     */
    method Sweep(now: int)
      requires Valid() && capacity > 0 && |entries| == capacity
      modifies this`hand, this`entries
      ensures Valid() && IsVictim(old(entries), old(hand), now, hand)
      ensures entries == Swept(old(entries), old(hand), Passed(old(entries), old(hand), now, hand))
    {
      ghost var start, before := hand, entries;
      ghost var steps := MoveHand(now);
      SweptKeeps(before, start, steps, index, history);
    }

    method MoveHand(now: int) returns (ghost steps: nat)
      requires hand < capacity == |entries|
      modifies this`hand, this`entries
      ensures entries == Swept(old(entries), old(hand), steps) && IsVictim(old(entries), old(hand), now, hand)
      ensures steps == Passed(old(entries), old(hand), now, hand)
    {
      steps := 0;
      ghost var start, before := hand, entries;
      assert entries == Swept(before, start, 0);
      while !Replaceable(entries[hand], now)
        invariant |before| == capacity && Passing(before, start, now, steps, entries, hand)
        decreases capacity - steps
      {
        ghost var passed, at := entries, hand;
        FullTurn(before, start, now, steps, hand);
        var entry := entries[hand].value;
        entries := entries[hand := Some(entry.(chance := false))];
        hand := (hand + 1) % capacity;
        steps := steps + 1;
        PassedOne(before, start, now, steps - 1, passed, at, entries, hand);
      }
      FoundVictim(before, start, now, steps, hand);
    }

    /** The slot gets a new entry; the key it held before is forgotten. */
    method ReplaceSlot(at: nat, key: CacheKey, stored: Stored)
      requires Valid() && at < |entries| && key !in index
      modifies this`entries, this`index, this`history
      ensures Valid() && history == old(history)[key := stored]
      ensures entries == old(entries)[at := Some(Entry(key, stored.addresses, Expiry(stored), true))]
      ensures key in index && index[key] == at
      ensures forall k :: k != key ==> (k in index <==> k in old(index) && old(index)[k] != at)
      ensures forall k :: k != key && k in index ==> index[k] == old(index)[k]
    {
      if entries[at].Some? {
        index := index - {entries[at].value.key};
      }
      entries := entries[at := Some(Entry(key, stored.addresses, Expiry(stored), true))];
      index := index[key := at];
      history := history[key := stored];
    }

    method Append(key: CacheKey, stored: Stored)
      requires Valid() && |entries| < capacity && key !in index
      modifies this`entries, this`index, this`history
      ensures Valid() && history == old(history)[key := stored] && index == old(index)[key := |old(entries)|]
      ensures entries == old(entries) + [Some(Entry(key, stored.addresses, Expiry(stored), true))]
    {
      index := index[key := |entries|];
      entries := entries + [Some(Entry(key, stored.addresses, Expiry(stored), true))];
      history := history[key := stored];
    }

    method Refresh(key: CacheKey, stored: Stored)
      requires Valid() && key in index
      modifies this`entries, this`history
      ensures Valid() && history == old(history)[key := stored]
      ensures entries == old(entries)[index[key] := Some(Entry(key, stored.addresses, Expiry(stored), true))]
    {
      entries := entries[index[key] := Some(Entry(key, stored.addresses, Expiry(stored), true))];
      history := history[key := stored];
    }

    /**
     * After a put the key is cached, unless it was a removal or there is no
     * room at all. At most one other key is lost, and only when the cache is
     * full: the one in the slot the hand finds.
     */
    method Put(key: CacheKey, addresses: seq<IPAddress>, ttl: U32, now: int)
      requires Valid()
      modifies this`hand, this`entries, this`index, this`history
      ensures Valid()
      ensures capacity == 0 ==> index == old(index) && history == old(history)
      ensures capacity > 0 && (ttl == 0 || addresses == []) ==> index == old(index) - {key} && history == old(history) - {key}
      ensures capacity > 0 && ttl > 0 && addresses != [] ==>
                && history == old(history)[key := Stored(addresses, ttl, now)] && key in index
                && entries == Stocked(old(entries), old(hand), now, key in old(index), capacity, index[key],
                                      Entry(key, addresses, Expiry(history[key]), true))
                && (forall k :: k in index && k != key ==> k in old(index) && index[k] == old(index)[k])
                && (forall k :: k in old(index) && k !in index ==>
                      && key !in old(index) && |old(entries)| == capacity && old(index)[k] == index[key])
                && (key !in old(index) && |old(entries)| == capacity ==>
                      IsVictim(old(entries), old(hand), now, index[key]) && hand == (index[key] + 1) % capacity)
    {
      if capacity == 0 {
        return;
      }
      if ttl == 0 || addresses == [] {
        Remove(key);
        return;
      }
      var stored := Stored(addresses, ttl, now);
      if key in index {
        Refresh(key, stored);
        return;
      }
      if |entries| < capacity {
        Append(key, stored);
        return;
      }
      Sweep(now);
      ReplaceSlot(hand, key, stored);
      hand := (hand + 1) % capacity;
    }
  }

  lemma SweptStep(before: Slots, start: nat, steps: nat, after: Slots)
    requires start < |before| && steps < |before|
    requires var at := (start + steps) % |before|;
             after == Swept(before, start, steps)[at := Cleared(before[at])]
    ensures after == Swept(before, start, steps + 1)
  {
    StepForward(start, steps, |before|);
    var at := (start + steps) % |before|;
    assert Distance(start, at, |before|) == steps;
  }

  /** After a full turn the slot under the hand has lost its second chance. */
  lemma FullTurn(before: Slots, start: nat, now: int, steps: nat, hand: nat)
    requires start < |before| && steps <= |before| && hand == (start + steps) % |before|
    requires !Replaceable(Swept(before, start, steps)[hand], now)
    ensures steps < |before|
  {
    if steps == |before| {
      Wrap(start + steps, |before|);
    }
  }

  /** The hand has made `steps` steps from `start` over slots that it must not replace. */
  ghost predicate Passing(before: Slots, start: nat, now: int, steps: nat, entries: Slots, hand: nat) {
    && start < |before| == |entries| && steps <= |before| && hand == (start + steps) % |before|
    && entries == Swept(before, start, steps)
    && forall i :: 0 <= i < |before| && Distance(start, i, |before|) < steps ==> !Replaceable(before[i], now)
  }

  lemma PassedOne(before: Slots, start: nat, now: int, steps: nat, entries: Slots, hand: nat, after: Slots, next: nat)
    requires Passing(before, start, now, steps, entries, hand) && steps < |before| && !Replaceable(entries[hand], now)
    requires after == entries[hand := Some(entries[hand].value.(chance := false))] && next == (hand + 1) % |before|
    ensures Passing(before, start, now, steps + 1, after, next)
  {
    StepForward(start, steps, |before|);
    assert Distance(start, hand, |before|) == steps;
    SweptStep(before, start, steps, after);
  }

  lemma FoundVictim(before: Slots, start: nat, now: int, steps: nat, hand: nat)
    requires start < |before| && steps <= |before| && hand == (start + steps) % |before|
    requires Replaceable(Swept(before, start, steps)[hand], now)
    requires forall i :: 0 <= i < |before| && Distance(start, i, |before|) < steps ==> !Replaceable(before[i], now)
    ensures IsVictim(before, start, now, hand) && steps == Passed(before, start, now, hand)
  {
    if steps < |before| {
      StepForward(start, steps, |before|);
      assert Distance(start, hand, |before|) == steps;
    } else {
      Wrap(start + steps, |before|);
      assert hand == start;
    }
  }

  lemma SweptKeeps(before: Slots, start: nat, steps: nat, index: map<CacheKey, nat>, history: map<CacheKey, Stored>)
    requires start < |before| && Indexed(before, index) && Current(before, history)
    ensures Indexed(Swept(before, start, steps), index) && Current(Swept(before, start, steps), history)
  {
  }

  // ------------------------------------------------------- shards

  function Sum(parts: seq<nat>): nat {
    if parts == [] then 0 else Sum(parts[..|parts| - 1]) + parts[|parts| - 1]
  }

  /** The shards differ by at most one and together have the total capacity. */
  method SplitCapacity(total: nat, shards: nat) returns (r: Option<seq<nat>>)
    ensures r.None? <==> shards == 0
    ensures r.Some? ==> |r.value| == shards && Sum(r.value) == total
    ensures r.Some? ==> forall i :: 0 <= i < shards ==> total / shards <= r.value[i] <= total / shards + 1
  {
    if shards == 0 {
      return None;
    }
    var base, remainder := total / shards, total % shards;
    var parts: seq<nat> := [];
    for i := 0 to shards
      invariant parts == Parts(base, remainder, shards)[..i]
    {
      parts := parts + [base + if i < remainder then 1 else 0];
    }
    assert parts == Parts(base, remainder, shards);
    r := Some(parts);
    PartsSum(base, remainder, shards);
    assert total == base * shards + remainder;
  }

  /** The shard sizes: the first `remainder` ones have one more. */
  function Parts(base: nat, remainder: nat, shards: nat): (r: seq<nat>)
    ensures |r| == shards && forall i :: 0 <= i < shards ==> base <= r[i] <= base + 1
  {
    seq(shards, i => base + if i < remainder then 1 else 0)
  }

  lemma {:induction false} PartsSum(base: nat, remainder: nat, shards: nat)
    ensures Sum(Parts(base, remainder, shards)) == base * shards + Min(shards, remainder)
  {
    if shards > 0 {
      PartsSum(base, remainder, shards - 1);
      var parts := Parts(base, remainder, shards);
      assert parts[..shards - 1] == Parts(base, remainder, shards - 1);
      NextMultiple(base, shards);
    }
  }

  lemma NextMultiple(base: nat, n: nat)
    requires n > 0
    ensures base * n == base * (n - 1) + base
  {
  }

  method CeilSeconds(ticks: int) returns (seconds: nat)
    requires ticks > 0
    ensures seconds >= 1 && (seconds - 1) * TICKS_PER_SECOND < ticks <= seconds * TICKS_PER_SECOND
  {
    seconds := (ticks + TICKS_PER_SECOND - 1) / TICKS_PER_SECOND;
  }

  lemma TtlBound(s: Stored, now: int, remaining: nat)
    requires (remaining - 1) * TICKS_PER_SECOND < Expiry(s) - now
    ensures s.at <= now ==> remaining <= s.ttl
  {
  }
}
