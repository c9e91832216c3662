/** The cuckoo prefilter: buckets of four fingerprints, kick chains with a
    transactional rollback. The item hash is an arbitrary function. */
module CuckooFilter {
  import opened Basics
  import opened Words

  const SLOTS: nat := 4
  const MAX_FINGERPRINT: nat := 0xFFFF
  const GOLDEN: nat := 0x9e3779b97f4a7c15

  /** Zero marks an empty slot. */
  type Fingerprint = x: nat | x <= MAX_FINGERPRINT

  type Bucket = b: seq<Fingerprint> | |b| == SLOTS witness [0, 0, 0, 0]

  const EMPTY_BUCKET: Bucket := [0, 0, 0, 0]

  datatype InsertFailure = NoFailure | LoadLimitReached | KickLimitReached

  datatype KickRecord = KickRecord(bucket: nat, slot: nat, previous: Fingerprint)

  // ------------------------------------------------------------- arithmetic

  function SplitMix64(x: Word): (r: Word) {
    var a: Word := (x + GOLDEN) % WORD_SIZE;
    var b: Word := (Xor(a, a / 0x4000_0000) * 0xbf58476d1ce4e5b9) % WORD_SIZE;
    var c: Word := (Xor(b, b / 0x800_0000) * 0x94d049bb133111eb) % WORD_SIZE;
    Xor(c, c / 0x8000_0000) % WORD_SIZE
  }

  function NextRandomState(state: Word): Word {
    (state + GOLDEN) % WORD_SIZE
  }

  function LoadLimit(totalSlots: nat): nat {
    (totalSlots / 100) * 95 + ((totalSlots % 100) * 95) / 100
  }

  /** The overflow-free form computes the floor of 95 per cent. */
  lemma LoadLimitIsFloor(n: nat)
    ensures LoadLimit(n) == n * 95 / 100
    ensures LoadLimit(n) <= n
  {
  }

  function FingerprintOf(hash: Word): (f: Fingerprint)
    ensures f != 0
  {
    (hash / 0x1_0000_0000_0000) % MAX_FINGERPRINT + 1
  }

  /** The distance between the two homes of a fingerprint, never zero. */
  function Delta(n: nat, f: Fingerprint): nat
    requires n >= 1
  {
    Distance(SplitMix64(f), n)
  }

  function Distance(mixed: Word, n: nat): nat
    requires n >= 1
  {
    var d := And(mixed, n - 1);
    if d == 0 then 1 else d
  }

  function AlternateIndex(n: nat, i: nat, f: Fingerprint): nat
    requires n >= 1
  {
    Xor(i, Delta(n, f))
  }

  lemma DistanceRange(mixed: Word, k: nat)
    requires k >= 1
    ensures 0 < Distance(mixed, Pow2(k)) < Pow2(k)
  {
    AndMask(mixed, k);
    assert Pow2(k) == 2 * Pow2(k - 1);
  }

  lemma DistanceIsRemainder(mixed: Word, k: nat)
    ensures Distance(mixed, Pow2(k)) == if mixed % Pow2(k) == 0 then 1 else mixed % Pow2(k)
  {
    AndMask(mixed, k);
  }

  lemma DeltaRange(k: nat, f: Fingerprint)
    requires k >= 1
    ensures 0 < Delta(Pow2(k), f) < Pow2(k)
  {
    DistanceRange(SplitMix64(f), k);
  }

  lemma XorInvolution(k: nat, i: nat, d: nat)
    requires i < Pow2(k) && 0 < d < Pow2(k)
    ensures Xor(i, d) < Pow2(k) && Xor(i, d) != i && Xor(Xor(i, d), d) == i
  {
    XorBelow(i, d, k);
    XorCancels(i, d);
    XorDiffers(i, d);
  }

  /** In a table of 2^k buckets the alternate index is in range, different, and
      leads back. */
  lemma AlternateIsInvolution(k: nat, i: nat, f: Fingerprint)
    requires k >= 1 && i < Pow2(k)
    ensures var j := AlternateIndex(Pow2(k), i, f);
            j < Pow2(k) && j != i && AlternateIndex(Pow2(k), j, f) == i
  {
    DeltaRange(k, f);
    XorInvolution(k, i, Delta(Pow2(k), f));
  }

  // ----------------------------------------------------------------- tables

  type Table = seq<Bucket>

  function Put(t: Table, b: nat, slot: nat, f: Fingerprint): (r: Table)
    requires b < |t| && slot < SLOTS
    ensures |r| == |t|
  {
    t[b := t[b][slot := f]]
  }

  predicate Full(t: Table, b: nat)
    requires b < |t|
  {
    forall s :: 0 <= s < SLOTS ==> t[b][s] != 0
  }

  predicate Packed(t: Table, b: nat) {
    b < |t| && Full(t, b)
  }

  /** f is in one of its two homes. */
  predicate Present(t: Table, i: nat, f: Fingerprint)
    requires |t| >= 1
  {
    var j := AlternateIndex(|t|, i, f);
    (i < |t| && f in t[i]) || (j < |t| && f in t[j])
  }

  function Occupied(b: seq<Fingerprint>): nat {
    if b == [] then 0 else (if b[0] != 0 then 1 else 0) + Occupied(b[1..])
  }

  function OccupiedSlots(t: Table): nat {
    if t == [] then 0 else Occupied(t[0]) + OccupiedSlots(t[1..])
  }

  function Undo(t: Table, history: seq<KickRecord>): Table
    requires forall r <- history :: r.bucket < |t| && r.slot < SLOTS
    decreases |history|
  {
    if history == [] then t
    else
      var r := history[|history| - 1];
      Undo(Put(t, r.bucket, r.slot, r.previous), history[..|history| - 1])
  }

  lemma {:induction false} OccupiedUpdate(b: seq<Fingerprint>, slot: nat, f: Fingerprint)
    requires slot < |b|
    ensures Occupied(b[slot := f]) + (if b[slot] != 0 then 1 else 0) == Occupied(b) + (if f != 0 then 1 else 0)
  {
    if slot == 0 {
      assert b[slot := f][1..] == b[1..];
    } else {
      assert b[slot := f][1..] == b[1..][slot - 1 := f];
      OccupiedUpdate(b[1..], slot - 1, f);
    }
  }

  lemma {:induction false} OccupiedSlotsUpdate(t: Table, b: nat, c: Bucket)
    requires b < |t|
    ensures OccupiedSlots(t[b := c]) + Occupied(t[b]) == OccupiedSlots(t) + Occupied(c)
  {
    if b == 0 {
      assert t[b := c][1..] == t[1..];
    } else {
      assert t[b := c][1..] == t[1..][b - 1 := c];
      OccupiedSlotsUpdate(t[1..], b - 1, c);
    }
  }

  lemma PutCounts(t: Table, b: nat, slot: nat, f: Fingerprint)
    requires b < |t| && slot < SLOTS
    ensures OccupiedSlots(Put(t, b, slot, f)) + (if t[b][slot] != 0 then 1 else 0)
         == OccupiedSlots(t) + (if f != 0 then 1 else 0)
  {
    OccupiedUpdate(t[b], slot, f);
    OccupiedSlotsUpdate(t, b, t[b][slot := f]);
  }

  lemma {:induction false} EmptyTableCounts(n: nat)
    ensures OccupiedSlots(seq(n, _ => EMPTY_BUCKET)) == 0
  {
    var t: Table := seq(n, _ => EMPTY_BUCKET);
    if n != 0 {
      assert t[1..] == seq(n - 1, _ => EMPTY_BUCKET);
      EmptyTableCounts(n - 1);
      assert t[0] == EMPTY_BUCKET && Occupied(EMPTY_BUCKET) == 0;
    }
  }

  lemma PutRemovesOnlyVictim(t: Table, b: nat, slot: nat, f: Fingerprint, x: nat, g: Fingerprint)
    requires b < |t| && slot < SLOTS && x < |t| && g in t[x]
    ensures g in Put(t, b, slot, f)[x] || (x == b && g == t[b][slot])
    ensures f in Put(t, b, slot, f)[b]
  {
    var u := Put(t, b, slot, f);
    assert u[b][slot] == f;
    var s :| 0 <= s < SLOTS && t[x][s] == g;
    if x != b || s != slot {
      assert u[x][s] == g;
    }
  }

  /** Writing f into a slot of bucket b removes at most the fingerprint that was
      there, and makes f present from either of its homes. */
  lemma PutPresence(t: Table, k: nat, b: nat, slot: nat, f: Fingerprint, i: nat, g: Fingerprint)
    requires |t| == Pow2(k) && k >= 1 && b < |t| && slot < SLOTS && i < |t|
    ensures var u := Put(t, b, slot, f);
            && Present(u, b, f) && Present(u, AlternateIndex(|t|, b, f), f)
            && (Present(t, i, g) ==>
                  || Present(u, i, g)
                  || (g == t[b][slot] && (i == b || i == AlternateIndex(|t|, b, g))))
  {
    AlternateIsInvolution(k, b, f);
    AlternateIsInvolution(k, i, g);
    PutRemovesOnlyVictim(t, b, slot, f, b, t[b][slot]);
    var j := AlternateIndex(|t|, i, g);
    if g in t[i] {
      PutRemovesOnlyVictim(t, b, slot, f, i, g);
    } else if g in t[j] {
      PutRemovesOnlyVictim(t, b, slot, f, j, g);
    }
  }

  /** One kick: the hand goes in, the victim comes out and will go to its other
      home. Whatever was findable is still findable or in the hand. */
  lemma KickKeepsPresence(t: Table, k: nat, v: nat, slot: nat, hand: Fingerprint, i: nat, g: Fingerprint)
    requires |t| == Pow2(k) && k >= 1 && v < |t| && slot < SLOTS && i < |t|
    requires Present(t, i, g) || InHand(|t|, v, hand, i, g)
    ensures var u := Put(t, v, slot, hand);
            var w := AlternateIndex(|t|, v, t[v][slot]);
            Present(u, i, g) || InHand(|t|, w, t[v][slot], i, g)
  {
    PutPresence(t, k, v, slot, hand, i, g);
    AlternateIsInvolution(k, v, t[v][slot]);
    AlternateIsInvolution(k, v, hand);
  }

  /** g, looked up from i, is the fingerprint about to be placed in bucket v. */
  predicate InHand(n: nat, v: nat, hand: Fingerprint, i: nat, g: Fingerprint)
    requires n >= 1
  {
    g == hand && (i == v || i == AlternateIndex(n, v, hand))
  }

  /** A fingerprint on its way to a bucket, while all others are in the table. */
  datatype Carry = Carry(table: Table, bucket: nat, hand: Fingerprint, random: Word)

  predicate Crowded(c: Carry) {
    Packed(c.table, c.bucket)
  }

  /** The carried fingerprint takes a random slot, and what was there is carried on to its other home. */
  predicate Displaces(a: Carry, b: Carry)
    requires Crowded(a)
  {
    && b.random == NextRandomState(a.random)
    && var slot := SplitMix64(b.random) % SLOTS;
       && b.hand == a.table[a.bucket][slot]
       && b.table == Put(a.table, a.bucket, slot, a.hand)
       && b.bucket == AlternateIndex(|a.table|, a.bucket, b.hand)
  }

  /** Displacement after displacement, each out of a crowded bucket. */
  predicate IsWalk(start: Carry, walk: seq<Carry>) {
    && |walk| >= 1 && walk[0] == start
    && forall k :: 0 <= k < |walk| - 1 ==> Moves(walk, k)
  }

  predicate Moves(walk: seq<Carry>, k: nat)
    requires k + 1 < |walk|
  {
    Crowded(walk[k]) && Displaces(walk[k], walk[k + 1])
  }

  /** So many displacements meet crowded buckets only. */
  ghost predicate Stuck(start: Carry, kicks: nat) {
    exists walk :: IsWalk(start, walk) && |walk| == kicks + 1 && Crowded(walk[kicks])
  }

  lemma OneWay(a: Carry, b: Carry, c: Carry)
    requires Crowded(a) && Displaces(a, b) && Displaces(a, c)
    ensures b == c
  {
  }

  /** The walk is determined by its start. */
  lemma {:induction false} WalksAgree(start: Carry, a: seq<Carry>, b: seq<Carry>, k: nat)
    requires IsWalk(start, a) && IsWalk(start, b) && k < |a| && k < |b|
    ensures a[k] == b[k]
  {
    if k > 0 {
      WalksAgree(start, a, b, k - 1);
      assert Moves(a, k - 1) && Moves(b, k - 1);
      OneWay(a[k - 1], a[k], b[k]);
    }
  }

  lemma WalkOn(start: Carry, walk: seq<Carry>, next: Carry)
    requires IsWalk(start, walk) && Crowded(walk[|walk| - 1]) && Displaces(walk[|walk| - 1], next)
    ensures IsWalk(start, walk + [next])
  {
    var more := walk + [next];
    forall k | 0 <= k < |more| - 1 ensures Moves(more, k) {
      assert k < |walk| - 1 ==> Moves(walk, k);
    }
  }

  lemma NotStuck(start: Carry, walk: seq<Carry>, kicks: nat)
    requires IsWalk(start, walk) && |walk| <= kicks + 1 && !Crowded(walk[|walk| - 1])
    ensures !Stuck(start, kicks)
  {
    forall other | IsWalk(start, other) && |other| == kicks + 1 ensures !Crowded(other[kicks]) {
      WalksAgree(start, walk, other, |walk| - 1);
      assert |walk| - 1 < kicks ==> Moves(other, |walk| - 1);
    }
  }

  /** The walk comes to a bucket that has room, and the fingerprint takes its first free slot. */
  predicate Settles(walk: seq<Carry>, u: Table, random: Word) {
    && |walk| >= 1
    && var end := walk[|walk| - 1];
       Settled(end.table, end.bucket, end.hand, u) && random == end.random
  }

  /** The fingerprint was put into the first free slot of bucket b. */
  predicate Settled(t: Table, b: nat, f: Fingerprint, u: Table) {
    b < |t| && exists slot :: 0 <= slot < SLOTS && FirstFree(t, b, slot) && u == Put(t, b, slot, f)
  }

  predicate FirstFree(t: Table, b: nat, slot: nat)
    requires b < |t| && slot < SLOTS
  {
    t[b][slot] == 0 && forall s :: 0 <= s < slot ==> t[b][s] != 0
  }

  /** The bucket to start with is the one or the other home, at random. */
  function Departure(t: Table, first: nat, f: Fingerprint, random: Word): Carry
    requires |t| >= 1
  {
    var drawn := NextRandomState(random);
    Carry(t, if SplitMix64(drawn) % 2 == 0 then first else AlternateIndex(|t|, first, f), f, drawn)
  }

  /** Neither home has room, and the displacements end without finding any. */
  ghost predicate NoRoom(t: Table, first: nat, f: Fingerprint, random: Word, kicks: nat)
    requires |t| >= 1
  {
    && Packed(t, first) && Packed(t, AlternateIndex(|t|, first, f))
    && Stuck(Departure(t, first, f, random), kicks)
  }

  /** Two homes without room are eight slots taken. */
  lemma NoRoomTakesEight(t: Table, k: nat, first: nat, f: Fingerprint)
    requires |t| == Pow2(k) && k >= 1 && first < |t| && Packed(t, first) && Packed(t, AlternateIndex(|t|, first, f))
    ensures OccupiedSlots(t) >= 2 * SLOTS
  {
    var second := AlternateIndex(|t|, first, f);
    AlternateIsInvolution(k, first, f);
    var u := t[first := EMPTY_BUCKET];
    OccupiedSlotsUpdate(t, first, EMPTY_BUCKET);
    OccupiedSlotsUpdate(u, second, EMPTY_BUCKET);
    AllOccupied(t[first]);
    AllOccupied(t[second]);
    assert u[second] == t[second];
  }

  lemma {:induction false} AllOccupied(b: seq<Fingerprint>)
    requires forall s :: 0 <= s < |b| ==> b[s] != 0
    ensures Occupied(b) == |b|
  {
    if b != [] {
      AllOccupied(b[1..]);
    }
  }

  /** Both buckets a hash can go to are full. */
  predicate NoHome(t: Table, h: Word)
    requires |t| >= 1
  {
    var i, f := And(h, |t| - 1), FingerprintOf(h);
    Packed(t, i) && Packed(t, AlternateIndex(|t|, i, f))
  }

  /** A home with room takes the fingerprint, the first before the second; else the displacements do. */
  ghost predicate Placed(t: Table, first: nat, f: Fingerprint, random: Word, kicks: nat, u: Table, after: Word)
    requires |t| >= 1
  {
    var second := AlternateIndex(|t|, first, f);
    if !Packed(t, first) then Settled(t, first, f, u) && after == random
    else if !Packed(t, second) then Settled(t, second, f, u) && after == random
    else exists walk :: IsWalk(Departure(t, first, f, random), walk) && |walk| <= kicks + 1 && Settles(walk, u, after)
  }

  lemma UndoKick(t: Table, v: nat, slot: nat, hand: Fingerprint, history: seq<KickRecord>)
    requires v < |t| && slot < SLOTS
    requires forall r <- history :: r.bucket < |t| && r.slot < SLOTS
    ensures Undo(Put(t, v, slot, hand), history + [KickRecord(v, slot, t[v][slot])]) == Undo(t, history)
  {
    var h := history + [KickRecord(v, slot, t[v][slot])];
    assert h[..|h| - 1] == history;
    assert t[v][slot := hand][slot := t[v][slot]] == t[v];
    assert Put(Put(t, v, slot, hand), v, slot, t[v][slot]) == t;
  }

  /** A lookup of a hash compares the fingerprint made of its upper sixteen
      bits with the slots of two buckets: the hash modulo the table size, and
      that bucket's partner at the fingerprint's own distance. */
  lemma LookupExactly(t: Table, k: nat, h: Word, f: Fingerprint, i: nat, j: nat)
    requires |t| == Pow2(k) && k >= 1
    requires f == h / 0x1_0000_0000_0000 % 0xFFFF + 1 && i == h % Pow2(k) && IsPartner(k, i, j, SplitMix64(f))
    ensures i < |t| && j < |t| && (Findable(t, h) <==> f in t[i] || f in t[j])
  {
    AndMask(h, k);
    PartnerExactly(k, i, j, f, SplitMix64(f));
    TwoBuckets(t, h, i, j, f);
  }

  predicate IsPartner(k: nat, i: nat, j: nat, mixed: Word) {
    j == Xor(i, if mixed % Pow2(k) == 0 then 1 else mixed % Pow2(k))
  }

  lemma PartnerExactly(k: nat, i: nat, j: nat, f: Fingerprint, mixed: Word)
    requires k >= 1 && i < Pow2(k) && mixed == SplitMix64(f) && IsPartner(k, i, j, mixed)
    ensures j == AlternateIndex(Pow2(k), i, f) < Pow2(k)
  {
    DistanceIsRemainder(mixed, k);
    AlternateIsInvolution(k, i, f);
  }

  lemma TwoBuckets(t: Table, h: Word, i: nat, j: nat, f: Fingerprint)
    requires |t| >= 1 && f == FingerprintOf(h) && i == And(h, |t| - 1) < |t| && j == AlternateIndex(|t|, i, f) < |t|
    ensures Findable(t, h) <==> f in t[i] || f in t[j]
  {
  }

  // ------------------------------------------------------------- the filter

  /** The exponent of the smallest power of two that is at least n. */
  function CeilLog2(n: nat): (k: nat)
    requires n >= 1
    ensures Pow2(k) >= n && (k == 0 || Pow2(k - 1) < n)
    decreases n
  {
    if n == 1 then 0 else 1 + CeilLog2((n + 1) / 2)
  }

  /** The exponent of the least power of two that is at least the request and four. */
  function NormalizedLog(requested: nat): (k: nat)
    ensures k >= 2 && Pow2(k) >= requested && Pow2(k) >= 4 && Pow2(k - 1) < Max(requested, 4)
  {
    CeilLog2(Max(requested, 4))
  }

  lemma NormalizedIsLeast(requested: nat, j: nat)
    requires Pow2(j) >= Max(requested, 4)
    ensures NormalizedLog(requested) <= j
  {
    if j < NormalizedLog(requested) {
      PowersGrow(j, NormalizedLog(requested) - 1);
    }
  }

  lemma {:induction false} PowersGrow(j: nat, k: nat)
    requires j <= k
    ensures Pow2(j) <= Pow2(k)
  {
    if j < k {
      PowersGrow(j, k - 1);
    }
  }

  class Filter {
    const hash: seq<Byte> -> Word
    const maximumKicks: nat
    ghost const log: nat
    var buckets: Table
    var size: nat
    var rngState: Word
    var lastFailure: InsertFailure
    ghost var inserted: set<seq<Byte>>

    ghost predicate Valid()
      reads this
    {
      && log >= 2 && |buckets| == Pow2(log)
      && size == OccupiedSlots(buckets) <= LoadLimit(|buckets| * SLOTS)
      && ItemsFindable(buckets, hash, inserted)
    }

    function HomeIndex(item: seq<Byte>): nat
      requires |buckets| >= 1
      reads this
    {
      And(hash(item), |buckets| - 1)
    }

    constructor (ghost log: nat, bucketCount: nat, maximumKicks: nat, hash: seq<Byte> -> Word)
      requires log >= 2 && bucketCount == Pow2(log)
      ensures Valid() && inserted == {} && size == 0 && |buckets| == bucketCount && lastFailure == NoFailure
      ensures (forall b :: 0 <= b < bucketCount ==> buckets[b] == EMPTY_BUCKET)
      ensures rngState == SplitMix64(Xor(bucketCount, 0xD1B54A32D192ED03) % WORD_SIZE)
      ensures this.hash == hash && this.maximumKicks == maximumKicks
    {
      this.log := log;
      this.hash := hash;
      this.maximumKicks := maximumKicks;
      buckets := seq(bucketCount, _ => EMPTY_BUCKET);
      size := 0;
      rngState := SplitMix64(Xor(bucketCount, 0xD1B54A32D192ED03) % WORD_SIZE);
      lastFailure := NoFailure;
      inserted := {};
      EmptyTableCounts(bucketCount);
    }

    /** A lookup; it never misses an item whose insertion succeeded. */
    function Contains(item: seq<Byte>): (r: bool)
      requires Valid()
      reads this
      ensures item in inserted ==> r
      ensures r <==> Findable(buckets, hash(item))
    {
      FindFingerprint(HomeIndex(item), FingerprintOf(hash(item)))
    }

    predicate FindFingerprint(i: nat, f: Fingerprint)
      requires Valid()
      reads this
    {
      Present(buckets, i, f)
    }

    lemma HomeInRange(item: seq<Byte>)
      requires Valid()
      ensures HomeIndex(item) == hash(item) % |buckets| < |buckets|
    {
      AndMask(hash(item), log);
    }

    method FindEmptySlot(b: nat) returns (slot: Option<nat>)
      requires b < |buckets|
      ensures slot.None? <==> Full(buckets, b)
      ensures slot.Some? ==> slot.value < SLOTS && FirstFree(buckets, b, slot.value)
    {
      for s := 0 to SLOTS
        invariant forall r :: 0 <= r < s ==> buckets[b][r] != 0
      {
        if buckets[b][s] == 0 {
          return Some(s);
        }
      }
      slot := None;
    }

    method NextRandom() returns (r: Word)
      modifies this`rngState
      ensures rngState == NextRandomState(old(rngState)) && r == SplitMix64(rngState)
    {
      rngState := NextRandomState(rngState);
      r := SplitMix64(rngState);
    }

    /** One displacement: nothing is lost, and the record tells how to take it back. */
    method Displace(v: nat, hand: Fingerprint, ghost history: seq<KickRecord>) returns (record: KickRecord)
      requires log >= 2 && |buckets| == Pow2(log) && v < |buckets| && Full(buckets, v) && hand != 0
      requires forall r <- history :: r.bucket < |buckets| && r.slot < SLOTS
      modifies this`buckets, this`rngState
      ensures |buckets| == old(|buckets|) && record.bucket < |buckets| && record.slot < SLOTS && record.previous != 0
      ensures OccupiedSlots(buckets) == old(OccupiedSlots(buckets))
      ensures Undo(buckets, history + [record]) == Undo(old(buckets), history)
      ensures var w := AlternateIndex(|buckets|, v, record.previous);
              && w < |buckets| && StillFindable(old(buckets), v, hand, buckets, w, record.previous)
              && Displaces(old(Carry(buckets, v, hand, rngState)), Carry(buckets, w, record.previous, rngState))
    {
      var random := NextRandom();
      var slot := random % SLOTS;
      var previous := buckets[v][slot];
      KickStep(buckets, log, v, slot, hand, history);
      AlternateIsInvolution(log, v, previous);
      record := KickRecord(v, slot, previous);
      buckets := Put(buckets, v, slot, hand);
    }

    /** Places `f` by displacing fingerprints from bucket to bucket. Either
        everything findable stays findable and f becomes so too, or the table
        is exactly what it was and the displacements met no free slot. */
    method KickOut(victim: nat, f: Fingerprint) returns (ok: bool, ghost walk: seq<Carry>)
      requires log >= 2 && |buckets| == Pow2(log) && victim < |buckets| && Full(buckets, victim) && f != 0
      modifies this`buckets, this`size, this`rngState
      ensures |buckets| == old(|buckets|)
      ensures ok ==> size == old(size) + 1 && OccupiedSlots(buckets) == old(OccupiedSlots(buckets)) + 1
      ensures ok ==> AllFindable(old(buckets), victim, f, buckets)
      ensures !ok ==> buckets == old(buckets) && size == old(size)
      ensures IsWalk(old(Carry(buckets, victim, f, rngState)), walk) && |walk| <= maximumKicks + 1
      ensures ok ==> Settles(walk, buckets, rngState)
      ensures !ok ==> |walk| == maximumKicks + 1 && Crowded(walk[maximumKicks])
    {
      var n := |buckets|;
      walk := [Carry(buckets, victim, f, rngState)];
      var history: seq<KickRecord> := [];
      var v: nat, hand: Fingerprint := victim, f;
      for kick := 0 to maximumKicks
        invariant |buckets| == n && size == old(size) && v < n && hand != 0 && Full(buckets, v)
        invariant OccupiedSlots(buckets) == old(OccupiedSlots(buckets))
        invariant StillFindable(old(buckets), victim, f, buckets, v, hand)
        invariant |history| == kick && forall r <- history :: r.bucket < n && r.slot < SLOTS
        invariant Undo(buckets, history) == old(buckets)
        invariant IsWalk(old(Carry(buckets, victim, f, rngState)), walk) && |walk| == kick + 1
        invariant walk[kick] == Carry(buckets, v, hand, rngState)
      {
        var record := Displace(v, hand, history);
        history := history + [record];
        v, hand := AlternateIndex(n, v, record.previous), record.previous;
        WalkOn(old(Carry(buckets, victim, f, rngState)), walk, Carry(buckets, v, hand, rngState));
        walk := walk + [Carry(buckets, v, hand, rngState)];
        var empty := FindEmptySlot(v);
        if empty.Some? {
          PlaceInHand(buckets, log, v, empty.value, hand);
          buckets := Put(buckets, v, empty.value, hand);
          size := size + 1;
          return true, walk;
        }
      }
      Rollback(history, old(buckets));
      ok := false;
    }

    /** Inserting makes the item findable and loses nothing, or changes nothing. */
    method Insert(item: seq<Byte>) returns (ok: bool)
      requires Valid()
      modifies this`buckets, this`size, this`rngState, this`lastFailure, this`inserted
      ensures Valid() && |buckets| == old(|buckets|)
      ensures ok ==> inserted == old(inserted) + {item} && lastFailure == NoFailure
      ensures !ok ==>
                && buckets == old(buckets) && size == old(size) && rngState == old(rngState)
                && inserted == old(inserted) && lastFailure != NoFailure
                && !old(Contains(item))
      ensures lastFailure == LoadLimitReached <==>
                !old(Contains(item)) && old(size) >= LoadLimit(old(|buckets|) * SLOTS)
      ensures lastFailure == KickLimitReached <==>
                !old(Contains(item)) && old(size) < LoadLimit(old(|buckets|) * SLOTS)
                && NoRoom(old(buckets), old(HomeIndex(item)), FingerprintOf(hash(item)), old(rngState), maximumKicks)
      ensures old(size) < LoadLimit(old(|buckets|) * SLOTS) && !NoHome(old(buckets), hash(item)) ==> ok
      ensures old(Contains(item)) ==> buckets == old(buckets) && size == old(size) && rngState == old(rngState)
      ensures ok && !old(Contains(item)) ==>
                && size == old(size) + 1
                && Placed(old(buckets), old(HomeIndex(item)), FingerprintOf(hash(item)), old(rngState), maximumKicks, buckets, rngState)
    {
      lastFailure := NoFailure;
      var f := FingerprintOf(hash(item));
      var first := HomeIndex(item);
      HomeInRange(item);
      if FindFingerprint(first, f) {
        inserted := inserted + {item};
        return true;
      }
      ok := InsertNew(item, first, f);
    }

    /** An item whose fingerprint is not in the table is placed below the load limit. */
    method InsertNew(item: seq<Byte>, first: nat, f: Fingerprint) returns (ok: bool)
      requires Valid() && first == HomeIndex(item) && first < |buckets| && f == FingerprintOf(hash(item))
      modifies this`buckets, this`size, this`rngState, this`lastFailure, this`inserted
      ensures Valid() && |buckets| == old(|buckets|) && inserted == if ok then old(inserted) + {item} else old(inserted)
      ensures !ok ==> buckets == old(buckets) && size == old(size) && rngState == old(rngState)
      ensures ok <==> lastFailure == NoFailure
      ensures lastFailure == LoadLimitReached <==> old(size) >= LoadLimit(old(|buckets|) * SLOTS)
      ensures lastFailure == KickLimitReached <==>
                old(size) < LoadLimit(old(|buckets|) * SLOTS) && NoRoom(old(buckets), first, f, old(rngState), maximumKicks)
      ensures ok ==> size == old(size) + 1 && Placed(old(buckets), first, f, old(rngState), maximumKicks, buckets, rngState)
    {
      lastFailure := LoadLimitReached;
      if size >= LoadLimit(|buckets| * SLOTS) {
        return false;
      }
      ok := PlaceItem(item, first, f);
      lastFailure := if ok then NoFailure else KickLimitReached;
    }

    /** The fingerprint of a new item finds a slot, or everything is as before. */
    method PlaceItem(item: seq<Byte>, first: nat, f: Fingerprint) returns (ok: bool)
      requires Valid() && first == HomeIndex(item) && first < |buckets| && f == FingerprintOf(hash(item))
      requires size < LoadLimit(|buckets| * SLOTS)
      modifies this`buckets, this`size, this`rngState, this`inserted
      ensures Valid() && |buckets| == old(|buckets|) && inserted == if ok then old(inserted) + {item} else old(inserted)
      ensures !ok ==> buckets == old(buckets) && size == old(size) && rngState == old(rngState)
      ensures ok <==> !NoRoom(old(buckets), first, f, old(rngState), maximumKicks)
      ensures ok ==> size == old(size) + 1 && Placed(old(buckets), first, f, old(rngState), maximumKicks, buckets, rngState)
    {
      ok := Place(first, f);
      if ok {
        ItemsStayFindable(old(buckets), buckets, log, first, f, hash, inserted);
        inserted := inserted + {item};
      }
    }

    /** The three ways of placing a fingerprint that is not in the table. */
    method Place(first: nat, f: Fingerprint) returns (ok: bool)
      requires Valid() && first < |buckets| && f != 0
      modifies this`buckets, this`size, this`rngState
      ensures |buckets| == old(|buckets|)
      ensures ok ==> size == old(size) + 1 && OccupiedSlots(buckets) == size
      ensures ok ==> AllFindable(old(buckets), first, f, buckets)
      ensures !ok ==> buckets == old(buckets) && size == old(size) && rngState == old(rngState)
      ensures ok <==> !NoRoom(old(buckets), first, f, old(rngState), maximumKicks)
      ensures ok ==> Placed(old(buckets), first, f, old(rngState), maximumKicks, buckets, rngState)
    {
      AlternateIsInvolution(log, first, f);
      var empty := FindEmptySlot(first);
      if empty.Some? {
        PlaceInHand(buckets, log, first, empty.value, f);
        buckets := Put(buckets, first, empty.value, f);
        size := size + 1;
        return true;
      }
      var second := AlternateIndex(|buckets|, first, f);
      empty := FindEmptySlot(second);
      if empty.Some? {
        PlaceInHand(buckets, log, second, empty.value, f);
        buckets := Put(buckets, second, empty.value, f);
        size := size + 1;
        return true;
      }
      var before := rngState;
      var random := NextRandom();
      var victim := if random % 2 == 0 then first else second;
      ghost var start := Carry(buckets, victim, f, rngState);
      ghost var walk;
      ok, walk := KickOut(victim, f);
      if ok {
        NotStuck(start, walk, maximumKicks);
      } else {
        rngState := before;
      }
    }

    method Rollback(history: seq<KickRecord>, ghost before: Table)
      requires forall r <- history :: r.bucket < |buckets| && r.slot < SLOTS
      requires Undo(buckets, history) == before
      modifies this`buckets
      ensures buckets == before
    {
      var left := |history|;
      assert history[..left] == history;
      while left > 0
        invariant 0 <= left <= |history|
        invariant forall r <- history :: r.bucket < |buckets| && r.slot < SLOTS
        invariant Undo(buckets, history[..left]) == before
      {
        left := left - 1;
        var r := history[left];
        assert history[..left + 1][..left] == history[..left];
        buckets := Put(buckets, r.bucket, r.slot, r.previous);
      }
    }
  }

  /** Whatever could be found, or was in the hand on its way to v, can still be
      found or is in the hand on its way to w. */
  ghost predicate StillFindable(t: Table, v: nat, hand: Fingerprint, u: Table, w: nat, next: Fingerprint) {
    && |t| == |u| >= 1
    && forall i, g :: 0 <= i < |t| && g != 0 && (Present(t, i, g) || InHand(|t|, v, hand, i, g))
         ==> Present(u, i, g) || InHand(|u|, w, next, i, g)
  }

  ghost predicate AllFindable(t: Table, v: nat, hand: Fingerprint, u: Table) {
    && |t| == |u| >= 1
    && forall i, g :: 0 <= i < |t| && g != 0 && (Present(t, i, g) || InHand(|t|, v, hand, i, g))
         ==> Present(u, i, g)
  }

  predicate Findable(t: Table, h: Word)
    requires |t| >= 1
  {
    Present(t, And(h, |t| - 1), FingerprintOf(h))
  }

  ghost predicate ItemsFindable(t: Table, hash: seq<Byte> -> Word, items: set<seq<Byte>>)
    requires |t| >= 1
  {
    forall item :: item in items ==> Findable(t, hash(item))
  }

  lemma ItemsStayFindable(t: Table, u: Table, k: nat, v: nat, f: Fingerprint, hash: seq<Byte> -> Word, items: set<seq<Byte>>)
    requires |t| == Pow2(k) && AllFindable(t, v, f, u)
    requires ItemsFindable(t, hash, items)
    ensures ItemsFindable(u, hash, items)
  {
    forall item | item in items ensures Findable(u, hash(item)) {
      StaysFindable(t, u, k, v, f, hash(item));
    }
  }

  lemma StaysFindable(t: Table, u: Table, k: nat, v: nat, f: Fingerprint, h: Word)
    requires |t| == Pow2(k) && AllFindable(t, v, f, u) && Findable(t, h)
    ensures Findable(u, h)
  {
    AndMask(h, k);
    assert Present(t, And(h, |t| - 1), FingerprintOf(h));
  }

  lemma KickStep(t: Table, k: nat, v: nat, slot: nat, hand: Fingerprint, history: seq<KickRecord>)
    requires |t| == Pow2(k) && k >= 1 && v < |t| && slot < SLOTS && hand != 0 && t[v][slot] != 0
    requires forall r <- history :: r.bucket < |t| && r.slot < SLOTS
    ensures var u := Put(t, v, slot, hand);
            && OccupiedSlots(u) == OccupiedSlots(t)
            && Undo(u, history + [KickRecord(v, slot, t[v][slot])]) == Undo(t, history)
            && StillFindable(t, v, hand, u, AlternateIndex(|t|, v, t[v][slot]), t[v][slot])
  {
    PutCounts(t, v, slot, hand);
    UndoKick(t, v, slot, hand, history);
    forall i, g | 0 <= i < |t| && (Present(t, i, g) || InHand(|t|, v, hand, i, g))
      ensures Present(Put(t, v, slot, hand), i, g)
              || InHand(|t|, AlternateIndex(|t|, v, t[v][slot]), t[v][slot], i, g)
    {
      KickKeepsPresence(t, k, v, slot, hand, i, g);
    }
  }

  lemma PlaceInHand(t: Table, k: nat, v: nat, slot: nat, hand: Fingerprint)
    requires |t| == Pow2(k) && k >= 1 && v < |t| && slot < SLOTS && hand != 0 && t[v][slot] == 0
    ensures var u := Put(t, v, slot, hand);
            && OccupiedSlots(u) == OccupiedSlots(t) + 1
            && AllFindable(t, v, hand, u)
  {
    PutCounts(t, v, slot, hand);
    forall i, g | 0 <= i < |t| && g != 0 && (Present(t, i, g) || InHand(|t|, v, hand, i, g))
      ensures Present(Put(t, v, slot, hand), i, g)
    {
      PutPresence(t, k, v, slot, hand, i, g);
    }
  }
}
