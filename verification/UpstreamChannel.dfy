/**
 * Queries to the upstream resolver: each is matched, timed and ended exactly
 * once. The channel works on the id pool, the timer heap and the ready queue
 * themselves.
 */
module UpstreamChannel {
  import opened Basics
  import opened Wire
  import opened DomainNames
  import opened DnsMessages
  import opened DnsParser
  import opened DnsWriter
  import opened TimerQueue
  import opened TransactionIds
  import opened BinaryHeap
  import Scheduler

  type Task = Scheduler.Task

  const UPSTREAM_LIMITS: ParseLimits := DEFAULT_LIMITS.(maximumPacketSize := UDP_PAYLOAD_LIMIT)

  datatype QueryState = Idle | InFlight | Completed | Failed

  datatype Outcome = Response | Timeout | SendError | SocketError | Overloaded | InvalidQuery | Cancelled

  /** Where a query is; `id` is the id it travels with. */
  datatype Query = Query(state: QueryState, id: nat)

  /** What a query asks, and until when. */
  datatype Asked = Asked(header: Header, question: Question, deadline: Ticks)

  /** How a query ended. */
  datatype Reply = Reply(outcome: Outcome, response: seq<Byte>)

  datatype Stats = Stats(queriesSent: nat, responsesCompleted: nat, timeouts: nat, cancellations: nat, sendErrors: nat, socketErrors: nat,
                         overloaded: nat, invalidResponses: nat, unmatchedResponses: nat, invariantFailures: nat)

  datatype BeginResult = Suspended | ChannelClosed | OffThread | WrongScheduler | IdsExhausted | BadQuery | TimerFailure | SendFailed

  datatype PacketResult = Matched | Invalid | Unmatched | InvariantFailure

  /** The queries by handle, in the order in which they were made. */
  type Queries = seq<Query>
  type Timers = seq<TimerRegistration>
  type Tasks = seq<Scheduler.Task?>

  /** Everything the channel knows of its queries, by handle, and its statistics. `ended` lists those that were sent and have ended. */
  datatype Desk = Desk(queries: Queries, asked: seq<Asked>, replies: seq<Option<Reply>>, timerOf: Timers, taskOf: Tasks, stats: Stats,
                       ended: set<nat>)

  // ------------------------------------------------------- accounting

  function Ended(s: Stats): nat {
    s.responsesCompleted + s.timeouts + s.cancellations + s.socketErrors
  }

  /** The outcomes a query that was sent can have. */
  predicate Final(outcome: Outcome) {
    outcome in {Response, Timeout, Cancelled, SocketError}
  }

  function Counted(s: Stats, outcome: Outcome): Stats {
    match outcome
    case Response => s.(responsesCompleted := s.responsesCompleted + 1)
    case Timeout => s.(timeouts := s.timeouts + 1)
    case Cancelled => s.(cancellations := s.cancellations + 1)
    case SocketError => s.(socketErrors := s.socketErrors + 1)
    case SendError => s.(sendErrors := s.sendErrors + 1)
    case Overloaded => s.(overloaded := s.overloaded + 1)
    case InvalidQuery => s
  }

  /** A failed check raises the counter of broken invariants. */
  function Raised(s: Stats, failed: bool): Stats {
    s.(invariantFailures := s.invariantFailures + One(failed))
  }

  /** Every outcome raises its own counter and no other. */
  lemma CountedExactly(s: Stats, outcome: Outcome)
    ensures var t := Counted(s, outcome);
            && t.responsesCompleted == s.responsesCompleted + One(outcome == Response) && t.timeouts == s.timeouts + One(outcome == Timeout)
            && t.cancellations == s.cancellations + One(outcome == Cancelled) && t.socketErrors == s.socketErrors + One(outcome == SocketError)
            && t.sendErrors == s.sendErrors + One(outcome == SendError) && t.overloaded == s.overloaded + One(outcome == Overloaded)
            && t.queriesSent == s.queriesSent && t.invalidResponses == s.invalidResponses
            && t.unmatchedResponses == s.unmatchedResponses && t.invariantFailures == s.invariantFailures
  {
  }

  predicate Travelling(queries: Queries, q: nat) {
    q < |queries| && queries[q].state == InFlight
  }

  ghost predicate NoneTravelling(queries: Queries) {
    forall q: nat :: q < |queries| ==> queries[q].state != InFlight
  }

  /** Every occupied slot holds a query in flight under that id, and every query in flight holds its slot. */
  ghost predicate SlotsMatch(slots: seq<Option<nat>>, queries: Queries) {
    && (forall id :: 0 <= id < |slots| && slots[id].Some? ==> Travelling(queries, slots[id].value) && queries[slots[id].value].id == id)
    && (forall q: nat :: Travelling(queries, q) ==> queries[q].id < |slots| && slots[queries[q].id] == Some(q))
  }

  /** Every query that was sent has ended once or is still pending, and no check has ever failed. */
  ghost predicate Conserved(stats: Stats, pending: nat, ended: set<nat>, queries: Queries) {
    && stats.queriesSent == Ended(stats) + pending
    && stats.invariantFailures == 0
    && |ended| == Ended(stats)
    && (forall q :: q in ended ==> q < |queries| && queries[q].state in {Completed, Failed})
  }

  /** The queries in flight. */
  ghost function InFlightSet(queries: Queries): set<nat> {
    set q: nat | q < |queries| && queries[q].state == InFlight
  }

  lemma {:induction false} SameSize(ids: set<nat>, held: set<nat>, slots: seq<Option<nat>>)
    requires forall id :: id in ids ==> id < |slots| && slots[id].Some? && slots[id].value in held
    requires forall a, b :: a in ids && b in ids && slots[a] == slots[b] ==> a == b
    requires forall q :: q in held ==> exists id :: id in ids && slots[id] == Some(q)
    ensures |ids| == |held|
  {
    if ids == {} {
      assert held == {};
    } else {
      var id :| id in ids;
      var q := slots[id].value;
      SameSize(ids - {id}, held - {q}, slots);
    }
  }

  /** As many queries are in flight as slots are held. */
  lemma InFlightCounted(slots: seq<Option<nat>>, queries: Queries)
    requires SlotsMatch(slots, queries)
    ensures |Holding(slots)| == |InFlightSet(queries)|
  {
    forall q | q in InFlightSet(queries) ensures exists id :: id in Holding(slots) && slots[id] == Some(q) {
      assert Travelling(queries, q);
      assert queries[q].id in Holding(slots);
    }
    SameSize(Holding(slots), InFlightSet(queries), slots);
  }

  /** The timers in the heap are those of the queries in flight, but for one that has just fired. */
  ghost predicate TimersMatch(queries: Queries, timerOf: Timers, armed: set<TimerRegistration>, fired: Option<nat>) {
    && |timerOf| == |queries|
    && (forall q: nat :: q < |timerOf| ==>
          timerOf[q].home == q && (fired != Some(q) ==> (Travelling(queries, q) <==> timerOf[q] in armed)))
    && (fired.Some? ==> Travelling(queries, fired.value) && timerOf[fired.value] !in armed)
  }

  // ------------------------------------------------------- the end of a query

  /** `after` differs from `before` only in query `q`, which is no longer in flight. */
  ghost predicate Ends(before: Queries, q: nat, after: Queries) {
    Travelling(before, q) && |after| == |before| && after[q].state != InFlight && after == before[q := after[q]]
  }

  lemma EndKeepsSlots(slots: seq<Option<nat>>, before: Queries, q: nat, slotsAfter: seq<Option<nat>>, after: Queries)
    requires SlotsMatch(slots, before) && Ends(before, q, after) && slotsAfter == slots[before[q].id := None]
    ensures SlotsMatch(slotsAfter, after)
  {
    forall p: nat | Travelling(after, p) ensures after[p].id < |slotsAfter| && slotsAfter[after[p].id] == Some(p) {
      assert Travelling(before, p);
    }
    forall id | 0 <= id < |slotsAfter| && slotsAfter[id].Some?
      ensures Travelling(after, slotsAfter[id].value) && after[slotsAfter[id].value].id == id
    {
      assert slots[id] == slotsAfter[id];
    }
  }

  lemma EndKeepsCount(stats: Stats, pending: nat, ended: set<nat>, before: Queries, q: nat, outcome: Outcome, after: Queries)
    requires Conserved(stats, pending, ended, before) && Ends(before, q, after) && after[q].state == Completed && pending > 0 && Final(outcome)
    ensures Conserved(Counted(stats, outcome), pending - 1, ended + {q}, after) && q !in ended
  {
  }

  lemma EndKeepsTimers(before: Queries, q: nat, after: Queries, timerOf: Timers, armed: set<TimerRegistration>, fired: Option<nat>)
    requires TimersMatch(before, timerOf, armed, fired) && Ends(before, q, after) && fired in {None, Some(q)}
    ensures TimersMatch(after, timerOf, armed - {timerOf[q]}, None)
  {
    forall p: nat | p < |timerOf| ensures Travelling(after, p) <==> timerOf[p] in armed - {timerOf[q]} {
      assert p != q ==> Travelling(after, p) == Travelling(before, p) && timerOf[p] != timerOf[q];
    }
  }

  // ------------------------------------------------------- the start of a query

  /** `after` differs from `before` only in query `q`, which has come into flight. */
  ghost predicate Starts(before: Queries, q: nat, after: Queries) {
    q < |before| == |after| && before[q].state == Idle && after[q].state == InFlight && after == before[q := after[q]]
  }

  function CountSent(s: Stats): Stats {
    s.(queriesSent := s.queriesSent + 1)
  }

  lemma StartKeepsSlots(slots: seq<Option<nat>>, before: Queries, q: nat, slotsAfter: seq<Option<nat>>, after: Queries)
    requires SlotsMatch(slots, before) && Starts(before, q, after) && after[q].id < |slots| && slots[after[q].id].None?
    requires slotsAfter == slots[after[q].id := Some(q)]
    ensures SlotsMatch(slotsAfter, after)
  {
    forall p: nat | Travelling(after, p) ensures after[p].id < |slotsAfter| && slotsAfter[after[p].id] == Some(p) {
      assert p != q ==> Travelling(before, p);
    }
    forall i | 0 <= i < |slotsAfter| && slotsAfter[i].Some?
      ensures Travelling(after, slotsAfter[i].value) && after[slotsAfter[i].value].id == i
    {
      assert i != after[q].id ==> slots[i] == slotsAfter[i];
    }
  }

  /** All ids are in use, or their last query ended too recently. */
  ghost predicate AllTaken(slots: seq<Option<nat>>, endedAt: map<nat, int>, config: ChannelConfig, now: int)
    requires config.capacity <= |slots|
  {
    forall id :: 0 <= id < config.capacity ==>
      slots[id].Some? || (id in endedAt && now < endedAt[id] + config.idReuseGuard as int && now < LAST_TICK as int)
  }

  // ------------------------------------------------------- datagrams

  /** The message is a response to the query that travels with `id`. */
  predicate AnswersQuery(m: Message, id: nat, asked: Asked) {
    && m.header.isResponse && m.header.id == id && m.header.opcode == asked.header.opcode && !m.header.reservedZ
    && |m.questions| == 1 && SameQuestion(m.questions[0], asked.question)
  }

  /** The datagram, parsed as given, is a response to the query that travels with `id`. */
  predicate Answering(packet: seq<Byte>, parsed: Result<Message, ParseError>, id: nat, asked: Asked) {
    2 <= |packet| <= UDP_PAYLOAD_LIMIT && ReadU16(packet, 0) == Some(id) && parsed.Ok? && AnswersQuery(parsed.value, id, asked)
  }

  /** The packet with the id the client used. */
  function Readdressed(packet: seq<Byte>, id: U16): (r: seq<Byte>)
    requires |packet| >= 2
    ensures |r| == |packet| && r[2..] == packet[2..] && 256 * r[0] as nat + r[1] == id
  {
    Be16(id) + packet[2..]
  }

  /** The datagram, parsed as given, is a response to the query that holds the slot of its id. */
  predicate Expected(packet: seq<Byte>, truncated: bool, parsed: Result<Message, ParseError>, slots: seq<Option<nat>>, asked: seq<Asked>,
                     capacity: nat)
    requires |slots| == ID_SPACE
  {
    && !truncated && 2 <= |packet| <= UDP_PAYLOAD_LIMIT
    && var id := ReadU16(packet, 0).value;
       && id < capacity && slots[id].Some? && slots[id].value < |asked|
       && parsed.Ok? && AnswersQuery(parsed.value, id, asked[slots[id].value])
  }

  method RewriteId(packet: seq<Byte>, id: U16) returns (r: seq<Byte>)
    requires |packet| >= 2
    ensures r == Readdressed(packet, id)
  {
    var copy := new Byte[|packet|](i requires 0 <= i < |packet| => packet[i]);
    assert copy[..] == packet;
    var fault := RewriteTransactionId(copy, id);
    r := copy[..];
  }

  /**
   * A datagram is expected exactly when all of it arrived, its first two octets
   * name a slot in use, and it parses to a response with this id, the opcode
   * that was asked with, a clear Z bit and the one question that was asked.
   */
  lemma ExpectedExactly(packet: seq<Byte>, truncated: bool, parsed: Result<Message, ParseError>, slots: seq<Option<nat>>, asked: seq<Asked>,
                        capacity: nat, id: nat)
    requires |slots| == ID_SPACE && capacity <= ID_SPACE && |packet| >= 2 && id == 256 * packet[0] as nat + packet[1]
    ensures Expected(packet, truncated, parsed, slots, asked, capacity) <==>
              && !truncated && |packet| <= 512 && id < capacity && slots[id].Some? && slots[id].value < |asked| && parsed.Ok?
              && var m, a := parsed.value, asked[slots[id].value];
                 && m.header.isResponse && m.header.id == id && m.header.opcode == a.header.opcode && !m.header.reservedZ
                 && |m.questions| == 1 && m.questions[0].name.canonicalKey == a.question.name.canonicalKey
                 && m.questions[0].qtype == a.question.qtype && m.questions[0].qclass == a.question.qclass
  {
  }

  /** Finds the query a datagram answers, and what the client is told. */
  method Recognise(packet: seq<Byte>, truncated: bool, parsed: Result<Message, ParseError>, slots: seq<Option<nat>>, ghost queries: Queries,
                   asked: seq<Asked>, capacity: nat) returns (r: PacketResult, q: nat, response: seq<Byte>)
    requires |slots| == ID_SPACE && capacity <= ID_SPACE && SlotsMatch(slots, queries) && |asked| == |queries|
    ensures r == Matched <==> Expected(packet, truncated, parsed, slots, asked, capacity)
    ensures r != InvariantFailure
    ensures r == Matched ==> |packet| >= 2 && slots[ReadU16(packet, 0).value] == Some(q) && Travelling(queries, q)
                             && response == Readdressed(packet, asked[q].header.id)
  {
    q, response := 0, [];
    if truncated || |packet| > UDP_PAYLOAD_LIMIT {
      return Invalid, q, response;
    }
    var id := ReadU16(packet, 0);
    if id.None? || id.value >= capacity || slots[id.value].None? {
      return Unmatched, q, response;
    }
    q := slots[id.value].value;
    if parsed.Err? || !AnswersQuery(parsed.value, id.value, asked[q]) {
      return Invalid, q, response;
    }
    response := RewriteId(packet, asked[q].header.id);
    r := Matched;
  }

  method NoStats() returns (s: Stats)
    ensures Ended(s) == s.queriesSent == s.invariantFailures == 0
  {
    s := Stats(0, 0, 0, 0, 0, 0, 0, 0, 0, 0);
  }

  // ------------------------------------------------------- the three books of the channel

  /** Slots, ids and statistics agree. */
  ghost predicate BooksOk(pool: IdPool, queries: Queries, stats: Stats, ended: set<nat>)
    reads pool
  {
    pool.Settled() && SlotsMatch(pool.slots, queries) && Conserved(stats, pool.pendingCount, ended, queries)
  }

  /** The timer of a query is in the heap exactly while the query is in flight, but for one that has just fired. */
  ghost predicate TimingOk(timers: TimerQueue, queries: Queries, timerOf: Timers, fired: Option<nat>)
    reads timers`heap, timers`nextSequence, timers.heap, timerOf`owner, timerOf`heapIndex
  {
    timers.Valid() && timers.Knows(timerOf) && TimersMatch(queries, timerOf, timers.Members(), fired)
  }

  /** A task that waits for query `q` alone, can be scheduled and is not. */
  ghost predicate Waiting(scheduler: Scheduler.Scheduler, task: Task, q: nat)
    reads scheduler`ready, task`queued, task`scheduler, task`done, task`awaits
  {
    task.scheduler == scheduler && !task.done && !task.queued && task !in scheduler.ready && task.awaits == Some(q)
  }

  /** Exactly the queries in flight have a task, which waits for them. */
  ghost predicate TaskingOk(scheduler: Scheduler.Scheduler, queries: Queries, taskOf: Tasks)
    reads scheduler`ready, scheduler`readyHead, scheduler`readyTail, scheduler`readyCount, scheduler.ready`queued, scheduler.ready`readyNext
    reads taskOf`queued, taskOf`scheduler, taskOf`done, taskOf`awaits
  {
    && scheduler.ReadyLinked() && |taskOf| == |queries|
    && (forall q: nat :: q < |taskOf| ==>
          (Travelling(queries, q) <==> taskOf[q] != null) && (taskOf[q] != null ==> Waiting(scheduler, taskOf[q], q)))
  }

  // ------------------------------------------------------- ending, book by book

  /** Takes a timer out of the heap, if it is still there. */
  method StopTimer(timers: TimerQueue, timer: TimerRegistration, caller: nat, ghost known: Timers) returns (failed: bool)
    requires timers.Valid() && timers.Knows(known) && timer in known
    modifies timers`heap, timers.heap`heapIndex, timers.heap`owner, timer`hasCallback
    ensures timers.Valid() && timers.Knows(known) && (failed <==> timer in old(timers.Members()) && !timers.OnOwnerThread(caller))
    ensures timers.Members() == if failed then old(timers.Members()) else old(timers.Members()) - {timer}
  {
    failed := false;
    if timer.owner != null {
      ghost var before := timers.Members();
      timers.MembersOwned();
      var ok := timers.Disarm(timer, caller);
      failed := !ok;
      timers.MembersOwned();
      forall r | r in known && r != timer ensures timers.Tracks(r) && (r.owner == null || r.owner == timers) {
        assert r in before <==> r in timers.Members();
      }
    }
  }

  method EndTiming(timers: TimerQueue, ghost before: Queries, q: nat, ghost after: Queries, timerOf: Timers, caller: nat,
                   ghost fired: Option<nat>) returns (stuck: bool)
    requires TimingOk(timers, before, timerOf, fired) && fired in {None, Some(q)} && Ends(before, q, after) && timers.OnOwnerThread(caller)
    modifies timers`heap, timers.heap`heapIndex, timers.heap`owner, timerOf`hasCallback
    ensures TimingOk(timers, after, timerOf, None) && !stuck && timers.Members() == old(timers.Members()) - {timerOf[q]}
  {
    EndKeepsTimers(before, q, after, timerOf, timers.Members(), fired);
    stuck := StopTimer(timers, timerOf[q], caller, timerOf);
  }

  /** The earliest timer is taken out of the heap before its callback runs. */
  method PopTimer(timers: TimerQueue, ghost queries: Queries, ghost timerOf: Timers) returns (q: nat)
    requires TimingOk(timers, queries, timerOf, None) && timers.heap != [] && timers.heap[0] in timerOf
    modifies timers`heap, timers`invariantFailures, timers.heap`heapIndex, timers.heap`owner, timers.heap`hasCallback
    ensures q < |timerOf| && timerOf[q] == old(timers.heap[0]) && Travelling(queries, q) && TimingOk(timers, queries, timerOf, Some(q))
    ensures timers.Members() == old(timers.Members()) - {timerOf[q]} && timers.invariantFailures == old(timers.invariantFailures)
    ensures timers.running == old(timers.running) && timers.ownerThread == old(timers.ownerThread)
    ensures forall i :: 0 <= i < |timers.heap| ==> timers.heap[i] in old(timers.heap)
  {
    ghost var armed := timers.Members();
    assert timers.heap[0] in armed;
    var front := timers.CompleteFront(_ => true, true);
    q := front.home;
    timers.MembersOwned();
    assert forall i :: 0 <= i < |timers.heap| ==> timers.heap[i] in timers.Members();
    forall p: nat | p < |timerOf| && p != q
      ensures timers.Tracks(timerOf[p]) && (timerOf[p].owner == null || timerOf[p].owner == timers)
    {
      assert timerOf[p] in timers.Members() <==> timerOf[p] in armed;
    }
  }

  /** The slot is given up and the id goes into quarantine. */
  method EndBooks(pool: IdPool, ghost before: Queries, q: nat, ghost after: Queries, id: nat, now: Ticks, pick: nat, ghost stats: Stats,
                  ghost ended: set<nat>, ghost outcome: Outcome)
    requires BooksOk(pool, before, stats, ended) && Ends(before, q, after) && after[q].state == Completed && id == before[q].id
    requires pool.clock <= now as int && Final(outcome)
    modifies pool
    ensures BooksOk(pool, after, Counted(stats, outcome), ended + {q}) && q !in ended && pool.config == old(pool.config)
    ensures pool.clock == now as int && pool.pendingCount == old(pool.pendingCount) - 1 && pool.slots == old(pool.slots)[id := None]
    ensures pool.endedAt == old(pool.endedAt)[id := now as int]
  {
    ghost var slots := pool.slots;
    pool.Vacate(id);
    pool.ReleaseId(id, now, true, pick);
    EndKeepsSlots(slots, before, q, pool.slots, after);
    EndKeepsCount(stats, pool.pendingCount + 1, ended, before, q, outcome, after);
  }

  /** The task of an ended query goes into the ready queue, unless it is being destroyed. */
  method EndTasking(scheduler: Scheduler.Scheduler, ghost before: Queries, q: nat, ghost after: Queries, taskOf: Tasks, wake: bool, caller: nat)
    returns (lost: bool)
    requires TaskingOk(scheduler, before, taskOf) && Ends(before, q, after) && scheduler.running && scheduler.ownerThread == caller
    modifies scheduler`ready, scheduler`readyHead, scheduler`readyTail, scheduler`readyCount, scheduler.ready`readyNext
    modifies taskOf`queued, taskOf`readyNext, taskOf`awaits
    ensures TaskingOk(scheduler, after, taskOf[q := null]) && !lost && taskOf[q] != null
    ensures scheduler.running && scheduler.ownerThread == caller
    ensures scheduler.ready == old(scheduler.ready) + if wake then [taskOf[q]] else []
  {
    var task := taskOf[q];
    lost := false;
    if wake {
      var r := scheduler.Schedule(task, caller);
      lost := r != Scheduler.Scheduled;
    }
    task.awaits := None;
  }

  // ------------------------------------------------------- starting, book by book

  /** The books while `id` is kept for a query that is about to start. */
  ghost predicate BooksHeld(pool: IdPool, queries: Queries, stats: Stats, ended: set<nat>, id: nat)
    reads pool
  {
    && pool.Valid() && pool.reserved == {id} && SlotsMatch(pool.slots, queries) && Conserved(stats, pool.pendingCount, ended, queries)
  }

  method Reserve(pool: IdPool, ghost queries: Queries, ghost stats: Stats, ghost ended: set<nat>, now: Ticks, picks: nat -> nat)
    returns (chosen: Option<nat>)
    requires BooksOk(pool, queries, stats, ended) && pool.clock <= now as int
    modifies pool`states, pool`freeIds, pool`retired, pool`clock, pool`reserved
    ensures pool.clock == now as int && (chosen.None? <==> old(AllTaken(pool.slots, pool.endedAt, pool.config, now as int)))
    ensures chosen.None? ==> BooksOk(pool, queries, stats, ended)
    ensures chosen.Some? ==> BooksHeld(pool, queries, stats, ended, chosen.value) && chosen.value < pool.config.capacity
    ensures chosen.Some? && chosen.value in pool.endedAt ==>
              pool.endedAt[chosen.value] + pool.config.idReuseGuard as int <= now as int || now == LAST_TICK
  {
    chosen := pool.AllocateId(now, picks);
  }

  method ReturnId(pool: IdPool, ghost queries: Queries, ghost stats: Stats, ghost ended: set<nat>, id: nat, now: Ticks, pick: nat)
    requires BooksHeld(pool, queries, stats, ended, id) && pool.clock <= now as int
    modifies pool`states, pool`freeIds, pool`retired, pool`clock, pool`reserved, pool`endedAt
    ensures BooksOk(pool, queries, stats, ended) && pool.clock == now as int && pool.endedAt == old(pool.endedAt)
  {
    pool.ReleaseId(id, now, false, pick);
  }

  method StartBooks(pool: IdPool, ghost before: Queries, q: nat, ghost after: Queries, id: nat, ghost stats: Stats, ghost ended: set<nat>)
    requires BooksHeld(pool, before, stats, ended, id) && Starts(before, q, after) && after[q].id == id
    modifies pool`slots, pool`pendingCount, pool`reserved
    ensures BooksOk(pool, after, CountSent(stats), ended) && pool.slots == old(pool.slots)[id := Some(q)] && old(pool.slots)[id].None?
    ensures pool.pendingCount == old(pool.pendingCount) + 1
  {
    ghost var slots := pool.slots;
    pool.Occupy(id, q);
    StartKeepsSlots(slots, before, q, pool.slots, after);
  }

  /** Occupying the slot and giving it up again leaves only the free list in another order. */
  method UndoBooks(pool: IdPool, ghost before: Queries, q: nat, ghost after: Queries, id: nat, now: Ticks, pick: nat, ghost stats: Stats,
                   ghost ended: set<nat>)
    requires BooksOk(pool, after, CountSent(stats), ended) && Starts(before, q, after) && after[q].id == id && pool.clock <= now as int
    modifies pool
    ensures BooksOk(pool, before, stats, ended) && pool.config == old(pool.config) && pool.slots == old(pool.slots)[id := None]
    ensures pool.pendingCount == old(pool.pendingCount) - 1 && pool.endedAt == old(pool.endedAt) && pool.clock == now as int
  {
    ghost var slots := pool.slots;
    pool.Vacate(id);
    pool.ReleaseId(id, now, false, pick);
    EndKeepsSlots(slots, after, q, pool.slots, before);
  }

  method StartTiming(timers: TimerQueue, ghost before: Queries, q: nat, ghost after: Queries, timerOf: Timers, deadline: Ticks, caller: nat)
    returns (result: ArmResult)
    requires TimingOk(timers, before, timerOf, None) && Starts(before, q, after) && timers.OnOwnerThread(caller)
    modifies timers`heap, timers`nextSequence, timers.heap`heapIndex, timerOf[q]
    ensures result == if timers.accepting then Armed else Closed
    ensures result == Armed ==>
              TimingOk(timers, after, timerOf, None) && timers.Members() == old(timers.Members()) + {timerOf[q]} && timerOf[q].deadline == deadline
    ensures result != Armed ==> TimingOk(timers, before, timerOf, None) && timers.Members() == old(timers.Members())
  {
    ghost var armed := timers.Members();
    assert timerOf[q] !in timers.heap by {
      assert timerOf[q] !in timers.Members();
    }
    result := timers.Arm(timerOf[q], deadline, true, caller);
    forall p: nat | p < |timerOf| && p != q ensures timerOf[p] != timerOf[q] && timers.Tracks(timerOf[p]) {
      assert timerOf[p] in timers.Members() <==> timerOf[p] in armed;
    }
  }

  /** A task that is running: it waits for nothing and is not in the ready queue. */
  ghost predicate Active(scheduler: Scheduler.Scheduler, task: Task)
    reads scheduler`ready, task`queued, task`done, task`awaits
  {
    !task.done && !task.queued && task !in scheduler.ready && task.awaits == None
  }

  method StartTasking(scheduler: Scheduler.Scheduler, ghost before: Queries, q: nat, ghost after: Queries, taskOf: Tasks, task: Task)
    requires TaskingOk(scheduler, before, taskOf) && Starts(before, q, after) && Active(scheduler, task) && task.scheduler == scheduler
    modifies task`awaits
    ensures TaskingOk(scheduler, after, taskOf[q := task])
  {
    task.awaits := Some(q);
  }

  // ------------------------------------------------------- all books together

  /** Every query has its question, and its reply when it has been completed. */
  ghost predicate Formed(d: Desk) {
    && |d.asked| == |d.replies| == |d.queries|
    && (forall q: nat :: q < |d.asked| ==> EncodableLabels(d.asked[q].question.name.labels))
    && (forall q: nat :: q < |d.replies| ==> d.queries[q].state == Completed ==> d.replies[q].Some?)
  }

  ghost predicate DeskOk(pool: IdPool, timers: TimerQueue, scheduler: Scheduler.Scheduler, d: Desk, fired: Option<nat>)
    reads pool, timers`heap, timers`nextSequence, timers.heap, d.timerOf`owner, d.timerOf`heapIndex
    reads scheduler`ready, scheduler`readyHead, scheduler`readyTail, scheduler`readyCount, scheduler.ready`queued, scheduler.ready`readyNext
    reads d.taskOf`queued, d.taskOf`scheduler, d.taskOf`done, d.taskOf`awaits
  {
    && Formed(d) && BooksOk(pool, d.queries, d.stats, d.ended) && TimingOk(timers, d.queries, d.timerOf, fired)
    && TaskingOk(scheduler, d.queries, d.taskOf)
  }

  function EndedQueries(queries: Queries, q: nat): Queries
    requires q < |queries|
  {
    queries[q := queries[q].(state := Completed)]
  }

  /** The desk after query `q` has ended. */
  function EndedDesk(d: Desk, q: nat, outcome: Outcome, response: seq<Byte>, failures: nat): Desk
    requires q < |d.queries| == |d.replies| == |d.taskOf|
  {
    d.(queries := EndedQueries(d.queries, q),
       replies := d.replies[q := Some(Reply(outcome, response))],
       taskOf := d.taskOf[q := null],
       stats := Counted(d.stats, outcome).(invariantFailures := d.stats.invariantFailures + failures),
       ended := d.ended + {q})
  }

  /** The slot, the id and the timer of a query in flight are given up. */
  method Detach(pool: IdPool, timers: TimerQueue, ghost stats: Stats, ghost ended: set<nat>, queries: Queries, timerOf: Timers, q: nat,
                ghost outcome: Outcome, now: Ticks, pick: nat, caller: nat, ghost fired: Option<nat>) returns (stuck: bool)
    requires BooksOk(pool, queries, stats, ended) && TimingOk(timers, queries, timerOf, fired) && fired in {None, Some(q)}
    requires Travelling(queries, q) && Final(outcome) && pool.clock <= now as int && timers.OnOwnerThread(caller)
    modifies pool, timers`heap, timers.heap`heapIndex, timers.heap`owner, timerOf`hasCallback
    ensures BooksOk(pool, EndedQueries(queries, q), Counted(stats, outcome), ended + {q}) && q !in ended
    ensures TimingOk(timers, EndedQueries(queries, q), timerOf, None) && !stuck
    ensures timers.Members() == old(timers.Members()) - {timerOf[q]} && timers.OnOwnerThread(caller)
    ensures pool.config == old(pool.config) && pool.slots == old(pool.slots)[queries[q].id := None]
    ensures pool.pendingCount == old(pool.pendingCount) - 1 && pool.clock == now as int
    ensures pool.endedAt == old(pool.endedAt)[queries[q].id := now as int]
  {
    ghost var after := EndedQueries(queries, q);
    EndBooks(pool, queries, q, after, queries[q].id, now, pick, stats, ended, outcome);
    stuck := EndTiming(timers, queries, q, after, timerOf, caller, fired);
  }

  method EndAll(pool: IdPool, timers: TimerQueue, scheduler: Scheduler.Scheduler, ghost stats: Stats, ghost ended: set<nat>, queries: Queries,
                timerOf: Timers, taskOf: Tasks, q: nat, ghost outcome: Outcome, wake: bool, now: Ticks, pick: nat, caller: nat,
                ghost fired: Option<nat>) returns (stuck: bool, lost: bool)
    requires BooksOk(pool, queries, stats, ended) && TimingOk(timers, queries, timerOf, fired) && fired in {None, Some(q)}
    requires TaskingOk(scheduler, queries, taskOf)
    requires Travelling(queries, q) && Final(outcome) && pool.clock <= now as int && timers.OnOwnerThread(caller)
    requires scheduler.running && scheduler.ownerThread == caller
    modifies pool, timers`heap, timers.heap`heapIndex, timers.heap`owner, timerOf`hasCallback
    modifies scheduler`ready, scheduler`readyHead, scheduler`readyTail, scheduler`readyCount, scheduler.ready`readyNext
    modifies taskOf`queued, taskOf`readyNext, taskOf`awaits
    ensures BooksOk(pool, EndedQueries(queries, q), Counted(stats, outcome), ended + {q}) && q !in ended
    ensures TimingOk(timers, EndedQueries(queries, q), timerOf, None) && !stuck && !lost
    ensures TaskingOk(scheduler, EndedQueries(queries, q), taskOf[q := null])
    ensures timers.OnOwnerThread(caller) && scheduler.running && scheduler.ownerThread == caller
    ensures timers.Members() == old(timers.Members()) - {timerOf[q]}
    ensures pool.config == old(pool.config) && pool.slots == old(pool.slots)[queries[q].id := None]
    ensures pool.pendingCount == old(pool.pendingCount) - 1 && pool.clock == now as int
    ensures pool.endedAt == old(pool.endedAt)[queries[q].id := now as int]
    ensures taskOf[q] != null && scheduler.ready == old(scheduler.ready) + if wake then [taskOf[q]] else []
  {
    stuck := Detach(pool, timers, stats, ended, queries, timerOf, q, outcome, now, pick, caller, fired);
    assert scheduler.ReadyLinked();
    assert TaskingOk(scheduler, queries, taskOf);
    lost := EndTasking(scheduler, queries, q, EndedQueries(queries, q), taskOf, wake, caller);
  }

  lemma EndedFormed(d: Desk, q: nat, outcome: Outcome, response: seq<Byte>)
    requires Formed(d) && q < |d.queries| == |d.taskOf|
    ensures Formed(EndedDesk(d, q, outcome, response, 0))
  {
  }

  /**
   * Ends a query in flight: its slot, its id and its timer are given up and its
   * task is scheduled, unless it is being destroyed. A disarm or a schedule
   * that fails is counted; none does.
   */
  method Conclude(pool: IdPool, timers: TimerQueue, scheduler: Scheduler.Scheduler, d: Desk, q: nat, outcome: Outcome, response: seq<Byte>,
                  wake: bool, now: Ticks, pick: nat, caller: nat, ghost fired: Option<nat>) returns (e: Desk, lost: bool)
    requires DeskOk(pool, timers, scheduler, d, fired) && fired in {None, Some(q)} && Travelling(d.queries, q) && Final(outcome)
    requires pool.clock <= now as int && timers.OnOwnerThread(caller) && scheduler.running && scheduler.ownerThread == caller
    modifies pool, timers`heap, timers.heap`heapIndex, timers.heap`owner, d.timerOf`hasCallback
    modifies scheduler`ready, scheduler`readyHead, scheduler`readyTail, scheduler`readyCount, scheduler.ready`readyNext
    modifies d.taskOf`queued, d.taskOf`readyNext, d.taskOf`awaits
    ensures DeskOk(pool, timers, scheduler, e, None) && e == EndedDesk(d, q, outcome, response, 0) && q !in d.ended && !lost
    ensures timers.OnOwnerThread(caller) && scheduler.running && scheduler.ownerThread == caller
    ensures d.taskOf[q] != null && scheduler.ready == old(scheduler.ready) + if wake then [d.taskOf[q]] else []
    ensures timers.Members() == old(timers.Members()) - {d.timerOf[q]}
    ensures pool.config == old(pool.config) && pool.slots == old(pool.slots)[d.queries[q].id := None]
    ensures pool.pendingCount == old(pool.pendingCount) - 1 && pool.clock == now as int
    ensures pool.endedAt == old(pool.endedAt)[d.queries[q].id := now as int]
  {
    var stuck;
    stuck, lost := EndAll(pool, timers, scheduler, d.stats, d.ended, d.queries, d.timerOf, d.taskOf, q, outcome, wake, now, pick, caller, fired);
    e := EndedDesk(d, q, outcome, response, One(stuck) + One(lost));
    EndedFormed(d, q, outcome, response);
  }


  /** On another thread the timer cannot be disarmed: the query ends, its timer stays behind, and the failure is counted. */
  method DiscardElsewhere(pool: IdPool, timers: TimerQueue, d: Desk, q: nat, now: Ticks, pick: nat, caller: nat) returns (e: Desk)
    requires Formed(d) && BooksOk(pool, d.queries, d.stats, d.ended) && TimingOk(timers, d.queries, d.timerOf, None)
    requires |d.taskOf| == |d.queries| && Travelling(d.queries, q) && d.taskOf[q] != null
    requires pool.clock <= now as int && !timers.OnOwnerThread(caller)
    modifies pool, timers`heap, timers.heap`heapIndex, timers.heap`owner, d.timerOf`hasCallback, d.taskOf`awaits
    ensures e == EndedDesk(d, q, Cancelled, [], 1)
    ensures timers.Members() == old(timers.Members()) && d.timerOf[q] in timers.Members()
    ensures pool.config == old(pool.config) && pool.slots == old(pool.slots)[d.queries[q].id := None]
    ensures pool.pendingCount == old(pool.pendingCount) - 1 && pool.clock == now as int
    ensures pool.endedAt == old(pool.endedAt)[d.queries[q].id := now as int]
  {
    EndBooks(pool, d.queries, q, EndedQueries(d.queries, q), d.queries[q].id, now, pick, d.stats, d.ended, Cancelled);
    var stuck := StopTimer(timers, d.timerOf[q], caller, d.timerOf);
    d.taskOf[q].awaits := None;
    e := EndedDesk(d, q, Cancelled, [], One(stuck));
  }

  /** Ends the query whose timer is the earliest. */
  method ConcludeFront(pool: IdPool, timers: TimerQueue, scheduler: Scheduler.Scheduler, d: Desk, outcome: Outcome, now: Ticks, pick: nat,
                       caller: nat) returns (q: nat, e: Desk, lost: bool)
    requires DeskOk(pool, timers, scheduler, d, None) && Final(outcome) && timers.heap != [] && timers.heap[0] in d.timerOf
    requires pool.clock <= now as int && timers.OnOwnerThread(caller) && scheduler.running && scheduler.ownerThread == caller
    modifies pool, timers`heap, timers`invariantFailures, timers.heap`heapIndex, timers.heap`owner, timers.heap`hasCallback
    modifies d.timerOf`hasCallback
    modifies scheduler`ready, scheduler`readyHead, scheduler`readyTail, scheduler`readyCount, scheduler.ready`readyNext
    modifies d.taskOf`queued, d.taskOf`readyNext, d.taskOf`awaits
    ensures Travelling(d.queries, q) && d.timerOf[q] == old(timers.heap[0]) && timers.invariantFailures == old(timers.invariantFailures)
    ensures DeskOk(pool, timers, scheduler, e, None) && e == EndedDesk(d, q, outcome, [], 0) && q !in d.ended && !lost
    ensures timers.OnOwnerThread(caller) && scheduler.running && scheduler.ownerThread == caller
    ensures d.taskOf[q] != null && scheduler.ready == old(scheduler.ready) + [d.taskOf[q]]
    ensures timers.Members() == old(timers.Members()) - {d.timerOf[q]}
    ensures pool.config == old(pool.config) && pool.slots == old(pool.slots)[d.queries[q].id := None]
    ensures pool.pendingCount == old(pool.pendingCount) - 1 && pool.clock == now as int
    ensures pool.endedAt == old(pool.endedAt)[d.queries[q].id := now as int]
  {
    q := PopTimer(timers, d.queries, d.timerOf);
    assert TaskingOk(scheduler, d.queries, d.taskOf);
    e, lost := Conclude(pool, timers, scheduler, d, q, outcome, [], true, now, pick, caller, Some(q));
  }

  function StartedQueries(queries: Queries, q: nat, id: nat): Queries
    requires q < |queries|
  {
    queries[q := Query(InFlight, id)]
  }

  /** The query takes the slot of its id and its timer is armed; if that fails, the slot and the id are given back. */
  method Enter(pool: IdPool, timers: TimerQueue, ghost stats: Stats, ghost ended: set<nat>, queries: Queries, timerOf: Timers, q: nat, id: nat,
               deadline: Ticks, later: Ticks, pick: nat, caller: nat) returns (result: ArmResult)
    requires BooksHeld(pool, queries, stats, ended, id) && TimingOk(timers, queries, timerOf, None) && timers.OnOwnerThread(caller)
    requires q < |queries| && queries[q].state == Idle && pool.clock <= later as int
    modifies pool, timers`heap, timers`nextSequence, timers.heap`heapIndex, timerOf[q]
    ensures result == if timers.accepting then Armed else Closed
    ensures timers.OnOwnerThread(caller)
    ensures pool.config == old(pool.config) && pool.endedAt == old(pool.endedAt) && pool.clock <= later as int
    ensures result == Armed ==>
              && BooksOk(pool, StartedQueries(queries, q, id), CountSent(stats), ended)
              && TimingOk(timers, StartedQueries(queries, q, id), timerOf, None)
              && old(pool.slots)[id].None? && pool.slots == old(pool.slots)[id := Some(q)]
              && timers.Members() == old(timers.Members()) + {timerOf[q]} && timerOf[q].deadline == deadline
    ensures result != Armed ==>
              && BooksOk(pool, queries, stats, ended) && TimingOk(timers, queries, timerOf, None)
              && pool.slots == old(pool.slots) && timers.Members() == old(timers.Members())
  {
    ghost var after := StartedQueries(queries, q, id);
    StartBooks(pool, queries, q, after, id, stats, ended);
    result := StartTiming(timers, queries, q, after, timerOf, deadline, caller);
    if result != Armed {
      UndoBooks(pool, queries, q, after, id, later, pick, stats, ended);
    }
  }

  /** A query that could not be sent gives back its slot, its id and its timer. */
  method Rollback(pool: IdPool, timers: TimerQueue, ghost stats: Stats, ghost ended: set<nat>, ghost queries: Queries, timerOf: Timers, q: nat,
                  id: nat, later: Ticks, pick: nat, caller: nat)
    requires q < |queries| && queries[q].state == Idle && timers.OnOwnerThread(caller) && pool.clock <= later as int
    requires BooksOk(pool, StartedQueries(queries, q, id), CountSent(stats), ended)
    requires TimingOk(timers, StartedQueries(queries, q, id), timerOf, None)
    modifies pool, timers`heap, timers.heap`heapIndex, timers.heap`owner, timerOf`hasCallback
    ensures BooksOk(pool, queries, stats, ended) && TimingOk(timers, queries, timerOf, None)
    ensures timers.OnOwnerThread(caller)
    ensures pool.config == old(pool.config) && pool.endedAt == old(pool.endedAt) && pool.slots == old(pool.slots)[id := None]
    ensures pool.clock == later as int && timers.Members() == old(timers.Members()) - {timerOf[q]}
  {
    ghost var after := StartedQueries(queries, q, id);
    var stuck := EndTiming(timers, after, q, queries, timerOf, caller, None);
    UndoBooks(pool, queries, q, after, id, later, pick, stats, ended);
  }

  /** What follows the allocation of an id: only a query that was sent keeps its slot and its timer. */
  method Transmit(pool: IdPool, timers: TimerQueue, ghost stats: Stats, ghost ended: set<nat>, queries: Queries, timerOf: Timers, q: nat, id: nat,
                  deadline: Ticks, sent: bool, later: Ticks, pick: nat, caller: nat) returns (r: BeginResult)
    requires BooksHeld(pool, queries, stats, ended, id) && TimingOk(timers, queries, timerOf, None) && timers.OnOwnerThread(caller)
    requires q < |queries| && queries[q].state == Idle && pool.clock <= later as int
    modifies pool, timers`heap, timers`nextSequence, timers.heap`heapIndex, timers.heap`owner, timerOf`hasCallback, timerOf[q]
    ensures r == if !timers.accepting then ChannelClosed else if !sent then SendFailed else Suspended
    ensures timers.OnOwnerThread(caller)
    ensures pool.config == old(pool.config) && pool.endedAt == old(pool.endedAt) && pool.clock <= later as int
    ensures r == Suspended ==>
              && BooksOk(pool, StartedQueries(queries, q, id), CountSent(stats), ended)
              && TimingOk(timers, StartedQueries(queries, q, id), timerOf, None)
              && old(pool.slots)[id].None? && pool.slots == old(pool.slots)[id := Some(q)]
              && timers.Members() == old(timers.Members()) + {timerOf[q]} && timerOf[q].deadline == deadline
    ensures r != Suspended ==>
              && BooksOk(pool, queries, stats, ended) && TimingOk(timers, queries, timerOf, None)
              && pool.slots == old(pool.slots) && timers.Members() == old(timers.Members())
  {
    var result := Enter(pool, timers, stats, ended, queries, timerOf, q, id, deadline, later, pick, caller);
    if result != Armed {
      return if result == Closed then ChannelClosed else TimerFailure;
    }
    if !sent {
      assert forall i :: 0 <= i < |timers.heap| ==> timers.heap[i] in timers.Members();
      Rollback(pool, timers, stats, ended, queries, timerOf, q, id, later, pick, caller);
      return SendFailed;
    }
    r := Suspended;
  }

  /** The query can be written, under whatever id. */
  predicate Writable(a: Asked)
    requires EncodableLabels(a.question.name.labels)
  {
    QueryResult(a.header, [a.question], UDP_PAYLOAD_LIMIT).Ok?
  }

  /** A query can be written exactly when it is one and its question fits into a datagram. */
  lemma WritableExactly(a: Asked)
    requires EncodableLabels(a.question.name.labels)
    ensures Writable(a) <==> !a.header.isResponse && a.header.opcode <= 15 && 12 + LabelOctets(a.question.name.labels) + 5 <= 512
  {
    QueryWrittenExactly(a.header, [a.question], UDP_PAYLOAD_LIMIT);
    assert [a.question][1..] == [];
  }

  lemma WritableUnderAnyId(a: Asked, id: U16)
    requires EncodableLabels(a.question.name.labels)
    ensures QueryResult(a.header.(id := id), [a.question], UDP_PAYLOAD_LIMIT).Ok? == Writable(a)
  {
  }

  method WriteQuery(a: Asked, id: U16) returns (wire: Option<seq<Byte>>)
    requires EncodableLabels(a.question.name.labels)
    ensures wire.Some? <==> Writable(a)
    ensures wire.Some? ==> QueryResult(a.header.(id := id), [a.question], UDP_PAYLOAD_LIMIT) == Ok(wire.value)
  {
    WritableUnderAnyId(a, id);
    var written := SerializeQuery(a.header.(id := id), [a.question], UDP_PAYLOAD_LIMIT);
    wire := if written.Ok? then Some(written.value) else None;
  }

  /** An id is kept and the query is written under it. */
  method Obtain(pool: IdPool, ghost queries: Queries, ghost stats: Stats, ghost ended: set<nat>, a: Asked, now: Ticks, picks: nat -> nat)
    returns (r: BeginResult, id: nat, wire: seq<Byte>)
    requires BooksOk(pool, queries, stats, ended) && EncodableLabels(a.question.name.labels) && pool.clock <= now as int
    modifies pool`states, pool`freeIds, pool`retired, pool`clock, pool`reserved, pool`endedAt
    ensures pool.endedAt == old(pool.endedAt) && pool.clock == now as int
    ensures r == if old(AllTaken(pool.slots, pool.endedAt, pool.config, now as int)) then IdsExhausted
                 else if !Writable(a) then BadQuery
                 else Suspended
    ensures r != Suspended ==> BooksOk(pool, queries, stats, ended)
    ensures r == Suspended ==>
              && BooksHeld(pool, queries, stats, ended, id) && id < pool.config.capacity
              && (id in pool.endedAt ==> pool.endedAt[id] + pool.config.idReuseGuard as int <= now as int || now == LAST_TICK)
              && WrittenAs(a, id, wire)
  {
    id, wire := 0, [];
    var chosen := Reserve(pool, queries, stats, ended, now, picks);
    if chosen.None? {
      return IdsExhausted, id, wire;
    }
    id := chosen.value;
    var written := WriteQuery(a, id);
    if written.None? {
      ReturnId(pool, queries, stats, ended, id, now, picks(0));
      return BadQuery, id, wire;
    }
    wire := written.value;
    r := Suspended;
  }

  /** The query is written as `wire` under `id`. */
  ghost predicate WrittenAs(a: Asked, id: nat, wire: seq<Byte>)
    requires EncodableLabels(a.question.name.labels)
  {
    id < ID_SPACE && QueryResult(a.header.(id := id), [a.question], UDP_PAYLOAD_LIMIT) == Ok(wire)
  }

  /** A query was sent as `wire` under an id that was free and past its guard, whose slot it now holds. */
  ghost predicate Sent(before: seq<Option<nat>>, after: seq<Option<nat>>, endedAt: map<nat, int>, config: ChannelConfig, a: Asked, q: nat, id: nat,
                       now: Ticks, wire: seq<Byte>)
    requires EncodableLabels(a.question.name.labels)
  {
    && id < config.capacity && id < |before| && before[id].None? && after == before[id := Some(q)]
    && (id in endedAt ==> endedAt[id] + config.idReuseGuard as int <= now as int || now == LAST_TICK)
    && WrittenAs(a, id, wire)
  }

  /** An id is found, the query is written, its slot is taken, its timer is armed and it is sent, or everything is as before. */
  method Attempt(pool: IdPool, timers: TimerQueue, ghost stats: Stats, ghost ended: set<nat>, queries: Queries, timerOf: Timers, q: nat, a: Asked,
                 sent: bool, now: Ticks, later: Ticks, picks: nat -> nat, caller: nat) returns (r: BeginResult, id: nat, wire: seq<Byte>)
    requires BooksOk(pool, queries, stats, ended) && TimingOk(timers, queries, timerOf, None) && timers.OnOwnerThread(caller)
    requires q < |queries| && queries[q].state == Idle && EncodableLabels(a.question.name.labels) && pool.clock <= now as int <= later as int
    modifies pool, timers`heap, timers`nextSequence, timers.heap`heapIndex, timers.heap`owner, timerOf`hasCallback, timerOf[q]
    ensures r == if old(AllTaken(pool.slots, pool.endedAt, pool.config, now as int)) then IdsExhausted
                 else if !Writable(a) then BadQuery
                 else if !timers.accepting then ChannelClosed
                 else if !sent then SendFailed
                 else Suspended
    ensures pool.config == old(pool.config) && pool.endedAt == old(pool.endedAt) && pool.clock <= later as int && timers.OnOwnerThread(caller)
    ensures r == Suspended ==>
              && BooksOk(pool, StartedQueries(queries, q, id), CountSent(stats), ended)
              && TimingOk(timers, StartedQueries(queries, q, id), timerOf, None)
              && Sent(old(pool.slots), pool.slots, pool.endedAt, pool.config, a, q, id, now, wire)
              && timers.Members() == old(timers.Members()) + {timerOf[q]} && timerOf[q].deadline == a.deadline
    ensures r != Suspended ==>
              && BooksOk(pool, queries, stats, ended) && TimingOk(timers, queries, timerOf, None)
              && pool.slots == old(pool.slots) && timers.Members() == old(timers.Members())
  {
    var pick := picks(0);
    r, id, wire := Obtain(pool, queries, stats, ended, a, now, picks);
    assert timers.Valid() && timers.Knows(timerOf);
    if r == Suspended {
      r := Transmit(pool, timers, stats, ended, queries, timerOf, q, id, a.deadline, sent, later, pick, caller);
    }
  }

  /** What a refusal adds to the statistics. */
  function Refused(s: Stats, r: BeginResult): Stats {
    if r == IdsExhausted then Counted(s, Overloaded) else if r == SendFailed then Counted(s, SendError) else s
  }

  /** A refused query raises the counter of overloads or of failed sends, or none. */
  lemma RefusedExactly(s: Stats, r: BeginResult)
    ensures Refused(s, r) == s.(overloaded := s.overloaded + One(r == IdsExhausted), sendErrors := s.sendErrors + One(r == SendFailed))
  {
  }

  /** The desk after an attempt to send query `q`. */
  function BegunDesk(d: Desk, q: nat, task: Task, r: BeginResult, id: nat): Desk
    requires q < |d.queries| == |d.taskOf|
  {
    if r == Suspended then d.(queries := StartedQueries(d.queries, q, id), taskOf := d.taskOf[q := task], stats := CountSent(d.stats))
    else d.(stats := Refused(d.stats, r))
  }

  /** Exactly a query that was sent has its task waiting for it. */
  method Submit(pool: IdPool, timers: TimerQueue, scheduler: Scheduler.Scheduler, ghost stats: Stats, ghost ended: set<nat>, queries: Queries,
                timerOf: Timers, taskOf: Tasks, q: nat, a: Asked, task: Task, sent: bool, now: Ticks, later: Ticks, picks: nat -> nat, caller: nat)
    returns (r: BeginResult, id: nat, wire: seq<Byte>)
    requires BooksOk(pool, queries, stats, ended) && TimingOk(timers, queries, timerOf, None) && timers.OnOwnerThread(caller)
    requires TaskingOk(scheduler, queries, taskOf) && Active(scheduler, task) && task.scheduler == scheduler
    requires q < |queries| && queries[q].state == Idle && EncodableLabels(a.question.name.labels) && pool.clock <= now as int <= later as int
    modifies pool, timers`heap, timers`nextSequence, timers.heap`heapIndex, timers.heap`owner, timerOf`hasCallback, timerOf[q], task`awaits
    ensures r == if old(AllTaken(pool.slots, pool.endedAt, pool.config, now as int)) then IdsExhausted
                 else if !Writable(a) then BadQuery
                 else if !timers.accepting then ChannelClosed
                 else if !sent then SendFailed
                 else Suspended
    ensures pool.config == old(pool.config) && pool.endedAt == old(pool.endedAt) && pool.clock <= later as int && timers.OnOwnerThread(caller)
    ensures r == Suspended ==>
              && BooksOk(pool, StartedQueries(queries, q, id), CountSent(stats), ended)
              && TimingOk(timers, StartedQueries(queries, q, id), timerOf, None)
              && TaskingOk(scheduler, StartedQueries(queries, q, id), taskOf[q := task])
              && Sent(old(pool.slots), pool.slots, pool.endedAt, pool.config, a, q, id, now, wire)
              && timers.Members() == old(timers.Members()) + {timerOf[q]} && timerOf[q].deadline == a.deadline
    ensures r != Suspended ==>
              && BooksOk(pool, queries, stats, ended) && TimingOk(timers, queries, timerOf, None) && TaskingOk(scheduler, queries, taskOf)
              && task.awaits == None
              && pool.slots == old(pool.slots) && timers.Members() == old(timers.Members())
  {
    r, id, wire := Attempt(pool, timers, stats, ended, queries, timerOf, q, a, sent, now, later, picks, caller);
    assert scheduler.ReadyLinked();
    assert TaskingOk(scheduler, queries, taskOf);
    if r == Suspended {
      StartTasking(scheduler, queries, q, StartedQueries(queries, q, id), taskOf, task);
    }
  }

  lemma BegunFormed(d: Desk, q: nat, task: Task, r: BeginResult, id: nat)
    requires Formed(d) && q < |d.queries| == |d.taskOf|
    ensures Formed(BegunDesk(d, q, task, r, id))
  {
  }

  /** A refusal is not part of the account of sent queries. */
  lemma RefusedBooks(pool: IdPool, queries: Queries, stats: Stats, ended: set<nat>, r: BeginResult)
    ensures BooksOk(pool, queries, stats, ended) ==> BooksOk(pool, queries, Refused(stats, r), ended)
  {
  }

  /** The attempt to send a query, and the desk it leaves. */
  method Engage(pool: IdPool, timers: TimerQueue, scheduler: Scheduler.Scheduler, d: Desk, q: nat, task: Task, sent: bool, now: Ticks, later: Ticks,
                picks: nat -> nat, caller: nat) returns (r: BeginResult, wire: seq<Byte>, e: Desk)
    requires DeskOk(pool, timers, scheduler, d, None) && timers.OnOwnerThread(caller) && Active(scheduler, task) && task.scheduler == scheduler
    requires q < |d.queries| && d.queries[q].state == Idle && pool.clock <= now as int <= later as int
    modifies pool, timers`heap, timers`nextSequence, timers.heap`heapIndex, timers.heap`owner, d.timerOf`hasCallback, d.timerOf[q], task`awaits
    ensures r == if old(AllTaken(pool.slots, pool.endedAt, pool.config, now as int)) then IdsExhausted
                 else if !Writable(d.asked[q]) then BadQuery
                 else if !timers.accepting then ChannelClosed
                 else if !sent then SendFailed
                 else Suspended
    ensures DeskOk(pool, timers, scheduler, e, None) && |e.queries| == |d.queries| && e == BegunDesk(d, q, task, r, e.queries[q].id)
    ensures timers.OnOwnerThread(caller)
    ensures pool.config == old(pool.config) && pool.endedAt == old(pool.endedAt) && pool.clock <= later as int
    ensures r == Suspended ==> Sent(old(pool.slots), pool.slots, pool.endedAt, pool.config, d.asked[q], q, e.queries[q].id, now, wire)
    ensures r == Suspended ==>
              && timers.Members() == old(timers.Members()) + {d.timerOf[q]} && d.timerOf[q].deadline == d.asked[q].deadline
    ensures r != Suspended ==>
              && pool.slots == old(pool.slots) && timers.Members() == old(timers.Members())
              && task.awaits == None
  {
    var id;
    r, id, wire := Submit(pool, timers, scheduler, d.stats, d.ended, d.queries, d.timerOf, d.taskOf, q, d.asked[q], task, sent, now, later, picks,
                          caller);
    e := BegunDesk(d, q, task, r, id);
    BegunFormed(d, q, task, r, id);
    RefusedBooks(pool, d.queries, d.stats, d.ended, r);
  }

  // ------------------------------------------------------- queries that are not in flight

  /** A query that was just made. */
  function NewDesk(d: Desk, a: Asked, timer: TimerRegistration): Desk {
    d.(queries := d.queries + [Query(Idle, 0)], asked := d.asked + [a], replies := d.replies + [None], timerOf := d.timerOf + [timer],
       taskOf := d.taskOf + [null])
  }

  /** A query that is not in flight is settled without having been sent, or after having ended. */
  function SettledDesk(d: Desk, q: nat, state: QueryState, reply: Option<Reply>): Desk
    requires q < |d.queries| == |d.replies|
  {
    d.(queries := d.queries[q := d.queries[q].(state := state)], replies := d.replies[q := reply])
  }

  lemma NewBooks(pool: IdPool, before: Queries, after: Queries, stats: Stats, ended: set<nat>)
    requires BooksOk(pool, before, stats, ended) && after == before + [Query(Idle, 0)]
    ensures BooksOk(pool, after, stats, ended)
  {
    assert forall q: nat :: Travelling(after, q) <==> Travelling(before, q);
  }

  lemma NewTiming(timers: TimerQueue, before: Queries, after: Queries, timerOf: Timers, timer: TimerRegistration)
    requires TimingOk(timers, before, timerOf, None) && after == before + [Query(Idle, 0)]
    requires timer.home == |before| && timer !in timers.heap && timer.owner == null && timer.heapIndex == NOT_IN_HEAP
    ensures TimingOk(timers, after, timerOf + [timer], None)
  {
  }

  lemma NewTasking(scheduler: Scheduler.Scheduler, before: Queries, after: Queries, taskOf: Tasks)
    requires TaskingOk(scheduler, before, taskOf) && after == before + [Query(Idle, 0)]
    ensures TaskingOk(scheduler, after, taskOf + [null])
  {
  }

  lemma NewKeepsDesk(pool: IdPool, timers: TimerQueue, scheduler: Scheduler.Scheduler, d: Desk, a: Asked, timer: TimerRegistration)
    requires DeskOk(pool, timers, scheduler, d, None) && EncodableLabels(a.question.name.labels)
    requires timer.home == |d.queries| && timer !in timers.heap && timer.owner == null && timer.heapIndex == NOT_IN_HEAP
    ensures DeskOk(pool, timers, scheduler, NewDesk(d, a, timer), None)
  {
    var after := d.queries + [Query(Idle, 0)];
    NewBooks(pool, d.queries, after, d.stats, d.ended);
    NewTiming(timers, d.queries, after, d.timerOf, timer);
    NewTasking(scheduler, d.queries, after, d.taskOf);
  }

  lemma SettleKeepsDesk(pool: IdPool, timers: TimerQueue, scheduler: Scheduler.Scheduler, d: Desk, q: nat, state: QueryState, reply: Option<Reply>)
    requires DeskOk(pool, timers, scheduler, d, None) && q < |d.queries| && d.queries[q].state != InFlight && state in {Completed, Failed}
    requires state == Completed ==> reply.Some?
    ensures DeskOk(pool, timers, scheduler, SettledDesk(d, q, state, reply), None)
  {
    var after := d.queries[q := d.queries[q].(state := state)];
    assert forall p: nat :: Travelling(after, p) <==> Travelling(d.queries, p);
  }

  /** Counters outside the account of sent queries change nothing else. */
  lemma TallyKeepsDesk(pool: IdPool, timers: TimerQueue, scheduler: Scheduler.Scheduler, d: Desk, stats: Stats)
    requires DeskOk(pool, timers, scheduler, d, None)
    requires stats.queriesSent == d.stats.queriesSent && Ended(stats) == Ended(d.stats) && stats.invariantFailures == d.stats.invariantFailures
    ensures DeskOk(pool, timers, scheduler, d.(stats := stats), None)
  {
  }

  /** How a query ends that could not be sent; none means that it was used wrongly. */
  function Verdict(r: BeginResult): Option<Outcome> {
    match r
    case ChannelClosed => Some(Cancelled)
    case IdsExhausted => Some(Overloaded)
    case BadQuery => Some(InvalidQuery)
    case SendFailed => Some(SendError)
    case _ => None
  }

  /** What the asker is told: a closed channel cancels, no id is an overload, and misuse of the channel is no outcome. */
  lemma VerdictExactly(r: BeginResult)
    ensures Verdict(r) == Some(Cancelled) <==> r == ChannelClosed
    ensures Verdict(r) == Some(Overloaded) <==> r == IdsExhausted
    ensures Verdict(r) == Some(InvalidQuery) <==> r == BadQuery
    ensures Verdict(r) == Some(SendError) <==> r == SendFailed
    ensures Verdict(r).None? <==> r in {Suspended, OffThread, WrongScheduler, TimerFailure}
  {
  }

  /** A query that could not be sent is completed with the verdict, or has failed. */
  function Judged(d: Desk, q: nat, verdict: Option<Outcome>): Desk
    requires q < |d.queries| == |d.replies|
  {
    if verdict.Some? then SettledDesk(d, q, Completed, Some(Reply(verdict.value, []))) else SettledDesk(d, q, Failed, d.replies[q])
  }

  // ------------------------------------------------------- ending everything

  /** Every slot holds a query of the desk. */
  ghost predicate SlotsWithin(slots: seq<Option<nat>>, d: Desk) {
    && |d.queries| == |d.replies| == |d.taskOf|
    && forall id :: 0 <= id < |slots| && slots[id].Some? ==> slots[id].value < |d.queries|
  }

  /** The desk after the queries in the first `k` slots have ended, in the order of the slots. */
  ghost function FailedDesk(d: Desk, slots: seq<Option<nat>>, outcome: Outcome, k: nat): (e: Desk)
    requires k <= |slots| && SlotsWithin(slots, d)
    ensures |e.queries| == |e.replies| == |e.taskOf| == |d.queries|
  {
    if k == 0 then d
    else
      var e := FailedDesk(d, slots, outcome, k - 1);
      if slots[k - 1].Some? then EndedDesk(e, slots[k - 1].value, outcome, [], 0) else e
  }

  /** The tasks of the queries in the first `k` slots, in the order of the slots. */
  ghost function WaitingTasks(slots: seq<Option<nat>>, taskOf: Tasks, k: nat): seq<Task>
    requires k <= |slots|
  {
    if k == 0 then []
    else
      WaitingTasks(slots, taskOf, k - 1)
      + match slots[k - 1]
        case Some(q) => (if q < |taskOf| && taskOf[q] != null then [taskOf[q]] else [])
        case None => []
  }

  /** Exactly the queries in these slots end, with this outcome; nothing else about any query changes. */
  lemma {:induction false} FailedExactly(d: Desk, slots: seq<Option<nat>>, outcome: Outcome, k: nat, q: nat)
    requires k <= |slots| && SlotsWithin(slots, d) && SlotsMatch(slots, d.queries) && q < |d.queries|
    ensures var e := FailedDesk(d, slots, outcome, k);
            var hit := Travelling(d.queries, q) && d.queries[q].id < k;
            && e.queries[q] == (if hit then d.queries[q].(state := Completed) else d.queries[q])
            && e.replies[q] == (if hit then Some(Reply(outcome, [])) else d.replies[q])
            && e.taskOf[q] == (if hit then null else d.taskOf[q])
            && (q in e.ended <==> hit || q in d.ended)
            && e.asked == d.asked && e.timerOf == d.timerOf
  {
    if k > 0 {
      FailedExactly(d, slots, outcome, k - 1, q);
    }
  }

  /** The tasks and the timers that ending queries may touch. */
  ghost predicate Covered(ready: seq<Task>, heap: seq<TimerRegistration>, d: Desk, tasks: set<Task>, registrations: set<TimerRegistration>) {
    && (forall i :: 0 <= i < |ready| ==> ready[i] in tasks)
    && (forall i :: 0 <= i < |heap| ==> heap[i] in registrations)
    && (forall q: nat :: q < |d.taskOf| ==> d.taskOf[q] == null || d.taskOf[q] in tasks)
    && (forall q: nat :: q < |d.timerOf| ==> d.timerOf[q] in registrations)
  }

  ghost function TasksOf(ready: seq<Task>, taskOf: Tasks): set<Task> {
    (set i | 0 <= i < |ready| :: ready[i]) + set q | 0 <= q < |taskOf| && taskOf[q] != null :: taskOf[q]
  }

  ghost function TimersOf(heap: seq<TimerRegistration>, timerOf: Timers): set<TimerRegistration> {
    set r | r in heap + timerOf
  }

  lemma OwnCovered(ready: seq<Task>, heap: seq<TimerRegistration>, d: Desk)
    ensures Covered(ready, heap, d, TasksOf(ready, d.taskOf), TimersOf(heap, d.timerOf))
  {
  }

  /** Ends a query in flight, within given sets of tasks and timers. */
  method ConcludeCovered(pool: IdPool, timers: TimerQueue, scheduler: Scheduler.Scheduler, d: Desk, q: nat, outcome: Outcome, now: Ticks, pick: nat,
                         caller: nat, ghost tasks: set<Task>, ghost registrations: set<TimerRegistration>) returns (e: Desk, lost: bool)
    requires DeskOk(pool, timers, scheduler, d, None) && Travelling(d.queries, q) && Final(outcome)
    requires Covered(scheduler.ready, timers.heap, d, tasks, registrations)
    requires pool.clock <= now as int && timers.OnOwnerThread(caller) && scheduler.running && scheduler.ownerThread == caller
    modifies pool, timers`heap, registrations`heapIndex, registrations`owner, registrations`hasCallback
    modifies scheduler`ready, scheduler`readyHead, scheduler`readyTail, scheduler`readyCount, tasks`queued, tasks`readyNext, tasks`awaits
    ensures DeskOk(pool, timers, scheduler, e, None) && e == EndedDesk(d, q, outcome, [], 0) && !lost
    ensures Covered(scheduler.ready, timers.heap, e, tasks, registrations)
    ensures timers.OnOwnerThread(caller) && scheduler.running && scheduler.ownerThread == caller
    ensures d.taskOf[q] != null && scheduler.ready == old(scheduler.ready) + [d.taskOf[q]]
    ensures pool.config == old(pool.config) && pool.slots == old(pool.slots)[d.queries[q].id := None]
    ensures pool.pendingCount == old(pool.pendingCount) - 1 && pool.clock == now as int
  {
    e, lost := Conclude(pool, timers, scheduler, d, q, outcome, [], true, now, pick, caller, None);
    forall i | 0 <= i < |timers.heap| ensures timers.heap[i] in registrations {
      assert timers.heap[i] in timers.Members();
    }
  }

  /** The queries of the first `k` slots have ended. */
  ghost predicate Swept(slots: seq<Option<nat>>, ready: seq<Task>, e: Desk, before: seq<Option<nat>>, readyBefore: seq<Task>, d: Desk, outcome: Outcome,
                        k: nat) {
    && |slots| == |before| && k <= |before| && SlotsWithin(before, d) && SlotsMatch(before, d.queries)
    && (forall id :: 0 <= id < |slots| ==> slots[id] == if id < k then None else before[id])
    && e == FailedDesk(d, before, outcome, k) && ready == readyBefore + WaitingTasks(before, d.taskOf, k)
  }

  lemma SweptStep(slots: seq<Option<nat>>, ready: seq<Task>, e: Desk, before: seq<Option<nat>>, readyBefore: seq<Task>, d: Desk, outcome: Outcome,
                  k: nat, slotsAfter: seq<Option<nat>>, readyAfter: seq<Task>, after: Desk)
    requires Swept(slots, ready, e, before, readyBefore, d, outcome, k) && k < |slots| && slotsAfter == slots[k := None]
    requires slots[k].None? ==> readyAfter == ready && after == e
    requires slots[k].Some? ==>
               var q := slots[k].value;
               e.taskOf[q] != null && readyAfter == ready + [e.taskOf[q]] && after == EndedDesk(e, q, outcome, [], 0)
    ensures Swept(slotsAfter, readyAfter, after, before, readyBefore, d, outcome, k + 1)
  {
    if slots[k].Some? {
      FailedExactly(d, before, outcome, k, slots[k].value);
    }
  }

  /** Ends the query in slot `k`, if there is one. */
  method SweepSlot(pool: IdPool, timers: TimerQueue, scheduler: Scheduler.Scheduler, d: Desk, k: nat, outcome: Outcome, now: Ticks, pick: nat,
                   caller: nat, ghost tasks: set<Task>, ghost registrations: set<TimerRegistration>, ghost before: seq<Option<nat>>,
                   ghost readyBefore: seq<Task>, ghost start: Desk) returns (e: Desk, ended: bool)
    requires DeskOk(pool, timers, scheduler, d, None) && Final(outcome) && k < |pool.slots|
    requires Covered(scheduler.ready, timers.heap, d, tasks, registrations)
    requires Swept(pool.slots, scheduler.ready, d, before, readyBefore, start, outcome, k)
    requires pool.clock <= now as int && timers.OnOwnerThread(caller) && scheduler.running && scheduler.ownerThread == caller
    modifies pool, timers`heap, registrations`heapIndex, registrations`owner, registrations`hasCallback
    modifies scheduler`ready, scheduler`readyHead, scheduler`readyTail, scheduler`readyCount, tasks`queued, tasks`readyNext, tasks`awaits
    ensures DeskOk(pool, timers, scheduler, e, None) && Covered(scheduler.ready, timers.heap, e, tasks, registrations)
    ensures Swept(pool.slots, scheduler.ready, e, before, readyBefore, start, outcome, k + 1)
    ensures timers.OnOwnerThread(caller) && scheduler.running && scheduler.ownerThread == caller
    ensures pool.config == old(pool.config) && pool.clock <= now as int && pool.pendingCount == old(pool.pendingCount) - One(ended)
  {
    e, ended := d, false;
    ghost var slots, ready := pool.slots, scheduler.ready;
    if pool.slots[k].Some? {
      var lost;
      e, lost := ConcludeCovered(pool, timers, scheduler, d, pool.slots[k].value, outcome, now, pick, caller, tasks, registrations);
      ended := !lost;
    }
    SweptStep(slots, ready, d, before, readyBefore, start, outcome, k, pool.slots, scheduler.ready, e);
  }

  /** Ends the queries of all slots below the capacity, one after the other. */
  method Sweep(pool: IdPool, timers: TimerQueue, scheduler: Scheduler.Scheduler, d: Desk, outcome: Outcome, now: Ticks, pick: nat, caller: nat,
               ghost tasks: set<Task>, ghost registrations: set<TimerRegistration>) returns (e: Desk, completed: nat)
    requires DeskOk(pool, timers, scheduler, d, None) && Final(outcome)
    requires Covered(scheduler.ready, timers.heap, d, tasks, registrations)
    requires pool.clock <= now as int && timers.OnOwnerThread(caller) && scheduler.running && scheduler.ownerThread == caller
    modifies pool, timers`heap, registrations`heapIndex, registrations`owner, registrations`hasCallback
    modifies scheduler`ready, scheduler`readyHead, scheduler`readyTail, scheduler`readyCount, tasks`queued, tasks`readyNext, tasks`awaits
    ensures DeskOk(pool, timers, scheduler, e, None) && pool.config == old(pool.config) && pool.config.capacity <= |pool.slots|
    ensures timers.OnOwnerThread(caller) && scheduler.running && scheduler.ownerThread == caller
    ensures Swept(pool.slots, scheduler.ready, e, old(pool.slots), old(scheduler.ready), d, outcome, pool.config.capacity)
    ensures pool.clock <= now as int && completed + pool.pendingCount == old(pool.pendingCount)
  {
    e, completed := d, 0;
    ghost var slots, ready := pool.slots, scheduler.ready;
    for k := 0 to pool.config.capacity
      invariant DeskOk(pool, timers, scheduler, e, None) && Covered(scheduler.ready, timers.heap, e, tasks, registrations)
      invariant Swept(pool.slots, scheduler.ready, e, slots, ready, d, outcome, k)
      invariant timers.OnOwnerThread(caller) && scheduler.running && scheduler.ownerThread == caller
      invariant pool.config == old(pool.config) && pool.clock <= now as int && completed + pool.pendingCount == old(pool.pendingCount)
    {
      var ended;
      e, ended := SweepSlot(pool, timers, scheduler, e, k, outcome, now, pick, caller, tasks, registrations, slots, ready, d);
      completed := completed + One(ended);
    }
  }

  // ------------------------------------------------------- running

  /** Tasks that wait for no query are other tasks than those that wait for one. */
  method RunWaiting(scheduler: Scheduler.Scheduler, ghost queries: Queries, ghost taskOf: Tasks, budget: nat, caller: nat, wakes: nat -> seq<Task>,
                    ghost tasks: set<Task>) returns (resumed: seq<Task>)
    requires TaskingOk(scheduler, queries, taskOf)
    requires scheduler.FlagsMatch(tasks) && scheduler.Within(tasks) && forall t :: t in tasks ==> t.awaits == None
    requires forall i: nat, k: nat :: k < |wakes(i)| ==> wakes(i)[k] in tasks
    modifies scheduler`ready, scheduler`readyHead, scheduler`readyTail, scheduler`readyCount, tasks`queued, tasks`readyNext
    ensures TaskingOk(scheduler, queries, taskOf) && scheduler.FlagsMatch(tasks) && scheduler.Within(tasks)
    ensures !(scheduler.running && scheduler.ownerThread == caller) ==> resumed == [] && scheduler.ready == old(scheduler.ready)
    ensures scheduler.running && scheduler.ownerThread == caller ==>
              (resumed, scheduler.ready) == Scheduler.Dispatch([], old(scheduler.ready), wakes, scheduler.Live(tasks), budget)
  {
    resumed := scheduler.RunReady(budget, caller, wakes, tasks);
    forall q: nat | q < |taskOf| && taskOf[q] != null ensures Waiting(scheduler, taskOf[q], q) {
      assert taskOf[q] !in tasks;
    }
  }

  // ------------------------------------------------------- expiry

  /** The place of every timer in the order of dispatch. */
  ghost predicate DueAt(timerOf: Timers, due: seq<Key>)
    reads timerOf`deadline, timerOf`sequence
  {
    |due| == |timerOf| && forall q: nat :: q < |due| ==> timerOf[q].Order() == due[q]
  }

  /** No other timers are in the heap. */
  ghost predicate Ours(heap: seq<TimerRegistration>, timerOf: Timers) {
    forall i :: 0 <= i < |heap| ==> heap[i] in timerOf
  }

  /** Of all queries in flight this one is due first. */
  ghost predicate DueFirst(queries: Queries, due: seq<Key>, q: nat) {
    && |due| == |queries| && Travelling(queries, q)
    && forall p: nat :: Travelling(queries, p) && p != q ==> Earlier(due[q], due[p])
  }

  lemma FrontIsDueFirst(timers: TimerQueue, queries: Queries, timerOf: Timers, due: seq<Key>, q: nat)
    requires TimingOk(timers, queries, timerOf, None) && DueAt(timerOf, due) && timers.heap != []
    requires q < |timerOf| && timerOf[q] == timers.heap[0]
    ensures DueFirst(queries, due, q)
  {
    timers.FrontIsEarliest();
    forall p: nat | Travelling(queries, p) && p != q ensures Earlier(due[q], due[p]) {
      assert timerOf[p] in timers.Members() && timerOf[p].home != timerOf[q].home;
    }
  }

  /** When the first timer in the heap is not due, no query in flight is. */
  lemma NothingDue(timers: TimerQueue, queries: Queries, timerOf: Timers, due: seq<Key>, now: Ticks)
    requires TimingOk(timers, queries, timerOf, None) && DueAt(timerOf, due) && (timers.heap == [] || timers.heap[0].deadline > now)
    ensures NoneDue(queries, due, now)
  {
    forall p: nat | Travelling(queries, p) ensures due[p].at > now as int {
      assert timerOf[p] in timers.Members();
      timers.FrontIsEarliest();
    }
  }

  /** The desk after these queries have timed out, in order. */
  ghost function TimedOut(d: Desk, fired: seq<nat>): (e: Desk)
    requires |d.queries| == |d.replies| == |d.taskOf| && forall i :: 0 <= i < |fired| ==> fired[i] < |d.queries|
    ensures |e.queries| == |e.replies| == |e.taskOf| == |d.queries|
  {
    if fired == [] then d
    else EndedDesk(TimedOut(d, fired[..|fired| - 1]), fired[|fired| - 1], Timeout, [], 0)
  }

  /** The tasks of these queries, in order. */
  ghost function TasksOfFired(taskOf: Tasks, fired: seq<nat>): seq<Task> {
    if fired == [] then []
    else
      var q := fired[|fired| - 1];
      TasksOfFired(taskOf, fired[..|fired| - 1]) + if q < |taskOf| && taskOf[q] != null then [taskOf[q]] else []
  }

  /** Exactly these queries end, as timeouts; nothing about any other query changes. */
  lemma {:induction false} TimedOutExactly(d: Desk, fired: seq<nat>, q: nat)
    requires |d.queries| == |d.replies| == |d.taskOf| && (forall i :: 0 <= i < |fired| ==> fired[i] < |d.queries|) && q < |d.queries|
    ensures var e := TimedOut(d, fired);
            && e.queries[q] == (if q in fired then d.queries[q].(state := Completed) else d.queries[q])
            && e.replies[q] == (if q in fired then Some(Reply(Timeout, [])) else d.replies[q])
            && e.taskOf[q] == (if q in fired then null else d.taskOf[q])
            && (q in e.ended <==> q in fired || q in d.ended)
            && e.asked == d.asked && e.timerOf == d.timerOf
  {
    if fired != [] {
      var front := fired[..|fired| - 1];
      TimedOutExactly(d, front, q);
      assert fired == front + [fired[|fired| - 1]];
    }
  }

  ghost predicate NoneDue(queries: Queries, due: seq<Key>, now: Ticks) {
    |due| == |queries| && forall p: nat :: Travelling(queries, p) ==> due[p].at > now as int
  }

  ghost predicate AllDue(due: seq<Key>, fired: seq<nat>, now: Ticks) {
    forall i :: 0 <= i < |fired| ==> fired[i] < |due| && due[fired[i]].at <= now as int
  }

  /** The queries in `fired` have timed out, each before every query that is still in flight. */
  ghost predicate Expired(d: Desk, readyBefore: seq<Task>, due: seq<Key>, fired: seq<nat>, e: Desk, ready: seq<Task>) {
    && |d.queries| == |d.replies| == |d.taskOf| == |due|
    && (forall i :: 0 <= i < |fired| ==> Travelling(d.queries, fired[i]))
    && e == TimedOut(d, fired) && ready == readyBefore + TasksOfFired(d.taskOf, fired)
    && (forall i, j :: 0 <= i < j < |fired| ==> Earlier(due[fired[i]], due[fired[j]]))
    && (forall i, p: nat :: 0 <= i < |fired| && Travelling(e.queries, p) ==> Earlier(due[fired[i]], due[p]))
  }

  lemma ExpiredOne(d: Desk, readyBefore: seq<Task>, due: seq<Key>, fired: seq<nat>, e: Desk, ready: seq<Task>, q: nat, after: Desk,
                   readyAfter: seq<Task>)
    requires Expired(d, readyBefore, due, fired, e, ready) && DueFirst(e.queries, due, q) && e.taskOf[q] != null
    requires after == EndedDesk(e, q, Timeout, [], 0) && readyAfter == ready + [e.taskOf[q]]
    ensures Expired(d, readyBefore, due, fired + [q], after, readyAfter)
  {
    TimedOutExactly(d, fired, q);
    assert (fired + [q])[..|fired|] == fired;
    forall p: nat | Travelling(after.queries, p) ensures Travelling(e.queries, p) && p != q {
    }
  }

  /** Ends the query that is due first. */
  method ConcludeDue(pool: IdPool, timers: TimerQueue, scheduler: Scheduler.Scheduler, d: Desk, now: Ticks, pick: nat, caller: nat,
                     ghost due: seq<Key>) returns (q: nat, e: Desk)
    requires DeskOk(pool, timers, scheduler, d, None) && timers.heap != [] && timers.heap[0] in d.timerOf && DueAt(d.timerOf, due)
    requires pool.clock <= now as int && timers.OnOwnerThread(caller) && scheduler.running && scheduler.ownerThread == caller
    modifies pool, timers`heap, timers`invariantFailures, timers.heap`heapIndex, timers.heap`owner, timers.heap`hasCallback
    modifies d.timerOf`hasCallback
    modifies scheduler`ready, scheduler`readyHead, scheduler`readyTail, scheduler`readyCount, scheduler.ready`readyNext
    modifies d.taskOf`queued, d.taskOf`readyNext, d.taskOf`awaits
    ensures DueFirst(d.queries, due, q) && due[q].at == old(timers.heap[0].deadline) as int && DueAt(d.timerOf, due)
    ensures DeskOk(pool, timers, scheduler, e, None) && e == EndedDesk(d, q, Timeout, [], 0)
    ensures d.taskOf[q] != null && scheduler.ready == old(scheduler.ready) + [d.taskOf[q]]
    ensures timers.OnOwnerThread(caller) && scheduler.running && scheduler.ownerThread == caller
    ensures timers.Members() == old(timers.Members()) - {d.timerOf[q]} && timers.invariantFailures == old(timers.invariantFailures)
    ensures pool.config == old(pool.config) && pool.clock == now as int
  {
    ghost var front := timers.heap[0];
    ghost var deadline := front.deadline as int;
    forall p: nat | p < |d.timerOf| && d.timerOf[p] == front ensures DueFirst(d.queries, due, p) && due[p].at == deadline {
      FrontIsDueFirst(timers, d.queries, d.timerOf, due, p);
    }
    var lost;
    q, e, lost := ConcludeFront(pool, timers, scheduler, d, Timeout, now, pick, caller);
  }

  /** Ends the query whose timer is the earliest, within given sets of tasks and timers. */
  method ExpireFront(pool: IdPool, timers: TimerQueue, scheduler: Scheduler.Scheduler, d: Desk, now: Ticks, pick: nat, caller: nat,
                     ghost tasks: set<Task>, ghost registrations: set<TimerRegistration>, ghost due: seq<Key>) returns (q: nat, e: Desk)
    requires DeskOk(pool, timers, scheduler, d, None) && timers.heap != [] && Ours(timers.heap, d.timerOf) && DueAt(d.timerOf, due)
    requires Covered(scheduler.ready, timers.heap, d, tasks, registrations)
    requires pool.clock <= now as int && timers.OnOwnerThread(caller) && scheduler.running && scheduler.ownerThread == caller
    modifies pool, timers`heap, timers`invariantFailures, registrations`heapIndex, registrations`owner, registrations`hasCallback
    modifies scheduler`ready, scheduler`readyHead, scheduler`readyTail, scheduler`readyCount, tasks`queued, tasks`readyNext, tasks`awaits
    ensures DeskOk(pool, timers, scheduler, e, None) && Covered(scheduler.ready, timers.heap, e, tasks, registrations)
    ensures DueFirst(d.queries, due, q) && due[q].at == old(timers.heap[0].deadline) as int && e == EndedDesk(d, q, Timeout, [], 0)
    ensures DueAt(e.timerOf, due)
    ensures timers.OnOwnerThread(caller) && scheduler.running && scheduler.ownerThread == caller
    ensures d.taskOf[q] != null && scheduler.ready == old(scheduler.ready) + [d.taskOf[q]]
    ensures pool.config == old(pool.config) && pool.clock <= now as int && Ours(timers.heap, e.timerOf)
    ensures timers.invariantFailures == old(timers.invariantFailures)
  {
    q, e := ConcludeDue(pool, timers, scheduler, d, now, pick, caller, due);
    forall i | 0 <= i < |timers.heap| ensures timers.heap[i] in registrations && timers.heap[i] in d.timerOf {
      assert timers.heap[i] in timers.Members();
    }
  }

  method ExpireNext(pool: IdPool, timers: TimerQueue, scheduler: Scheduler.Scheduler, d: Desk, now: Ticks, pick: nat, caller: nat,
                    ghost tasks: set<Task>, ghost registrations: set<TimerRegistration>, ghost start: Desk, ghost readyBefore: seq<Task>,
                    ghost due: seq<Key>, ghost fired: seq<nat>) returns (e: Desk, ghost q: nat)
    requires DeskOk(pool, timers, scheduler, d, None) && timers.heap != [] && timers.heap[0].deadline <= now && Ours(timers.heap, d.timerOf)
    requires Covered(scheduler.ready, timers.heap, d, tasks, registrations)
    requires Expired(start, readyBefore, due, fired, d, scheduler.ready) && DueAt(d.timerOf, due) && AllDue(due, fired, now)
    requires pool.clock <= now as int && timers.OnOwnerThread(caller) && scheduler.running && scheduler.ownerThread == caller
    modifies pool, timers`heap, timers`invariantFailures, registrations`heapIndex, registrations`owner, registrations`hasCallback
    modifies scheduler`ready, scheduler`readyHead, scheduler`readyTail, scheduler`readyCount, tasks`queued, tasks`readyNext, tasks`awaits
    ensures DeskOk(pool, timers, scheduler, e, None) && Ours(timers.heap, e.timerOf)
    ensures Covered(scheduler.ready, timers.heap, e, tasks, registrations)
    ensures Expired(start, readyBefore, due, fired + [q], e, scheduler.ready) && DueAt(e.timerOf, due) && AllDue(due, fired + [q], now)
    ensures pool.config == old(pool.config) && pool.clock <= now as int && timers.invariantFailures == old(timers.invariantFailures)
    ensures timers.OnOwnerThread(caller) && scheduler.running && scheduler.ownerThread == caller
  {
    ghost var ready := scheduler.ready;
    var ended;
    ended, e := ExpireFront(pool, timers, scheduler, d, now, pick, caller, tasks, registrations, due);
    q := ended;
    ExpiredOne(start, readyBefore, due, fired, d, ready, q, e, scheduler.ready);
  }

  /** Ends due queries, the earliest first, until none is due or the budget is used up. */
  method ExpireDesk(pool: IdPool, timers: TimerQueue, scheduler: Scheduler.Scheduler, d: Desk, now: Ticks, budget: nat, pick: nat, caller: nat,
                    ghost tasks: set<Task>, ghost registrations: set<TimerRegistration>, ghost due: seq<Key>)
    returns (e: Desk, dispatched: nat, ghost fired: seq<nat>)
    requires DeskOk(pool, timers, scheduler, d, None) && Ours(timers.heap, d.timerOf) && DueAt(d.timerOf, due)
    requires Covered(scheduler.ready, timers.heap, d, tasks, registrations)
    requires pool.clock <= now as int && timers.OnOwnerThread(caller) && scheduler.running && scheduler.ownerThread == caller
    modifies pool, timers`heap, timers`invariantFailures, registrations`heapIndex, registrations`owner, registrations`hasCallback
    modifies scheduler`ready, scheduler`readyHead, scheduler`readyTail, scheduler`readyCount, tasks`queued, tasks`readyNext, tasks`awaits
    ensures DeskOk(pool, timers, scheduler, e, None) && DueAt(e.timerOf, due)
    ensures Expired(d, old(scheduler.ready), due, fired, e, scheduler.ready) && dispatched == |fired| <= budget && AllDue(due, fired, now)
    ensures |fired| < budget ==> NoneDue(e.queries, due, now)
    ensures pool.config == old(pool.config) && pool.clock <= now as int && timers.invariantFailures == old(timers.invariantFailures)
    ensures timers.OnOwnerThread(caller) && scheduler.running && scheduler.ownerThread == caller
  {
    e, dispatched, fired := d, 0, [];
    ghost var ready := scheduler.ready;
    while dispatched < budget && timers.heap != [] && timers.heap[0].deadline <= now
      invariant DeskOk(pool, timers, scheduler, e, None) && Ours(timers.heap, e.timerOf) && DueAt(e.timerOf, due)
      invariant Covered(scheduler.ready, timers.heap, e, tasks, registrations)
      invariant Expired(d, ready, due, fired, e, scheduler.ready) && dispatched == |fired| <= budget
      invariant AllDue(due, fired, now)
      invariant pool.config == old(pool.config) && pool.clock <= now as int && timers.invariantFailures == old(timers.invariantFailures)
      invariant timers.OnOwnerThread(caller) && scheduler.running && scheduler.ownerThread == caller
      decreases budget - dispatched
    {
      ghost var q;
      e, q := ExpireNext(pool, timers, scheduler, e, now, pick, caller, tasks, registrations, d, ready, due, fired);
      fired := fired + [q];
      dispatched := dispatched + 1;
    }
    if dispatched < budget {
      NothingDue(timers, e.queries, e.timerOf, due, now);
    }
  }

  // ------------------------------------------------------- starting again

  /** Ids whose guard has passed become free, the audit passes, and the account begins anew. */
  method Renew(pool: IdPool, ghost queries: Queries, ghost stats: Stats, ghost ended: set<nat>, now: Ticks, picks: nat -> nat)
    returns (sound: bool, s: Stats)
    requires BooksOk(pool, queries, stats, ended) && pool.pendingCount == 0 && pool.clock <= now as int
    modifies pool`states, pool`freeIds, pool`retired, pool`clock
    ensures BooksOk(pool, queries, s, {}) && sound && s.queriesSent == 0 && pool.clock == now as int
  {
    pool.ReclaimIds(now, picks);
    sound := pool.ValidateIdPool();
    s := NoStats();
    s := Raised(s, !sound);
  }

  method RenewDesk(pool: IdPool, timers: TimerQueue, scheduler: Scheduler.Scheduler, d: Desk, now: Ticks, picks: nat -> nat)
    returns (sound: bool, e: Desk)
    requires DeskOk(pool, timers, scheduler, d, None) && pool.pendingCount == 0 && pool.clock <= now as int
    modifies pool`states, pool`freeIds, pool`retired, pool`clock
    ensures DeskOk(pool, timers, scheduler, e, None) && sound && e == d.(stats := e.stats, ended := {}) && e.stats.queriesSent == 0
    ensures pool.clock == now as int
  {
    var s;
    sound, s := Renew(pool, d.queries, d.stats, d.ended, now, picks);
    e := d.(stats := s, ended := {});
  }

  datatype ResumeError = QueryFailed | NotCompleted | OperationCancelled

  /** What the program makes of a datagram from upstream. */
  ghost predicate ReadAs(packet: seq<Byte>, parsed: Result<Message, ParseError>) {
    parsed == MessageOf(packet, UPSTREAM_LIMITS)
  }

  method ReadMessage(packet: seq<Byte>) returns (parsed: Result<Message, ParseError>)
    ensures ReadAs(packet, parsed)
  {
    parsed := ParseMessage(packet, UPSTREAM_LIMITS);
  }

  class UpstreamChannel {
    const pool: IdPool
    const timers: TimerQueue
    const scheduler: Scheduler.Scheduler
    var running: bool
    var accepting: bool
    var ownerThread: nat
    var desk: Desk

    /** While the channel runs, its timers and its scheduler run on its thread; a query is in flight only then. */
    ghost predicate Bound()
      reads this`running, this`ownerThread, this`desk, timers`running, timers`ownerThread, scheduler`running, scheduler`ownerThread
    {
      if running then timers.OnOwnerThread(ownerThread) && scheduler.running && scheduler.ownerThread == ownerThread
      else NoneTravelling(desk.queries)
    }

    ghost predicate Valid()
      reads this, pool, timers, timers.heap, desk.timerOf`owner, desk.timerOf`heapIndex
      reads scheduler, scheduler.ready`queued, scheduler.ready`readyNext
      reads desk.taskOf`queued, desk.taskOf`scheduler, desk.taskOf`done, desk.taskOf`awaits
    {
      Bound() && DeskOk(pool, timers, scheduler, desk, None)
    }

    /**
     * Every query that was sent has ended once or is in flight; a query in
     * flight holds one slot, one armed timer and one waiting task.
     */
    lemma QueryConservation()
      requires Valid()
      ensures desk.stats.queriesSent == Ended(desk.stats) + |InFlightSet(desk.queries)| && |desk.ended| == Ended(desk.stats)
      ensures desk.ended !! InFlightSet(desk.queries) && desk.stats.invariantFailures == 0
      ensures |desk.timerOf| == |desk.taskOf| == |desk.queries|
      ensures forall q: nat :: q < |desk.queries| ==>
                && (Travelling(desk.queries, q) <==> Some(q) in pool.slots)
                && (Travelling(desk.queries, q) <==> desk.timerOf[q] in timers.Members())
                && (Travelling(desk.queries, q) <==> desk.taskOf[q] != null)
                && (desk.taskOf[q] != null ==> Waiting(scheduler, desk.taskOf[q], q))
      ensures forall id :: 0 <= id < |pool.slots| && pool.slots[id].Some? ==>
                pool.slots[id].value < |desk.timerOf| && desk.timerOf[pool.slots[id].value] in timers.Members()
    {
      HoldingCounted(pool.freeIds, pool.retired, pool.slots, pool.states, pool.config.capacity);
      InFlightCounted(pool.slots, desk.queries);
      forall q: nat | q < |desk.queries| ensures Travelling(desk.queries, q) <==> Some(q) in pool.slots {
        if Some(q) in pool.slots {
          var id :| 0 <= id < |pool.slots| && pool.slots[id] == Some(q);
        }
      }
    }

    /** A channel after its first start, with an idle pool. */
    constructor (pool: IdPool, timers: TimerQueue, scheduler: Scheduler.Scheduler, thread: nat)
      requires pool.Settled() && pool.pendingCount == 0 && forall id :: 0 <= id < ID_SPACE ==> pool.slots[id].None?
      requires timers.Valid() && timers.OnOwnerThread(thread) && scheduler.ReadyLinked() && scheduler.running && scheduler.ownerThread == thread
      ensures Valid() && this.pool == pool && this.timers == timers && this.scheduler == scheduler
      ensures running && accepting && ownerThread == thread && desk.queries == [] && desk.ended == {} && desk.stats.queriesSent == 0
    {
      this.pool, this.timers, this.scheduler := pool, timers, scheduler;
      running, accepting, ownerThread := true, true, thread;
      var stats := NoStats();
      desk := Desk([], [], [], [], [], stats, {});
    }

    predicate OnOwnerThread(caller: nat)
      reads this`running, this`ownerThread
    {
      running && ownerThread == caller
    }

    /** A new query, which is not sent yet. */
    method QueryUntil(header: Header, question: Question, deadline: Ticks) returns (q: nat)
      requires Valid() && EncodableLabels(question.name.labels)
      modifies this`desk
      ensures Valid() && q == |old(desk.queries)| == |old(desk.timerOf)| && |desk.timerOf| == q + 1 && fresh(desk.timerOf[q])
      ensures desk == NewDesk(old(desk), Asked(header, question, deadline), desk.timerOf[q])
    {
      q := |desk.queries|;
      var timer := new TimerRegistration(q);
      NewKeepsDesk(pool, timers, scheduler, desk, Asked(header, question, deadline), timer);
      Put(NewDesk(desk, Asked(header, question, deadline), timer));
    }

    /** A new query with the configured timeout; its deadline stays within the clock's range. */
    method Ask(header: Header, question: Question, now: Ticks) returns (q: nat)
      requires Valid() && EncodableLabels(question.name.labels)
      modifies this`desk
      ensures Valid() && q == |old(desk.queries)| == |old(desk.timerOf)| && |desk.timerOf| == q + 1 && fresh(desk.timerOf[q])
      ensures exists deadline: Ticks ::
                && deadline as int == Min(LAST_TICK as int, now as int + pool.config.queryTimeout as int)
                && desk == NewDesk(old(desk), Asked(header, question, deadline), desk.timerOf[q])
    {
      var timeout := pool.config.queryTimeout;
      var deadline := LAST_TICK;
      if now <= 0 || timeout <= LAST_TICK - now {
        deadline := now + timeout;
      }
      q := QueryUntil(header, question, deadline);
    }

    /** The channel takes over a desk that is in order. */
    method Put(d: Desk)
      requires DeskOk(pool, timers, scheduler, d, None)
      requires if running then timers.OnOwnerThread(ownerThread) && scheduler.running && scheduler.ownerThread == ownerThread
               else NoneTravelling(d.queries)
      modifies this`desk
      ensures Valid() && desk == d
    {
      desk := d;
      assert DeskOk(pool, timers, scheduler, d, None);
    }

    /** Ends a query in flight and schedules its task, unless the task is being destroyed. */
    method End(q: nat, outcome: Outcome, response: seq<Byte>, wake: bool, now: Ticks, pick: nat, caller: nat) returns (lost: bool)
      requires Valid() && OnOwnerThread(caller) && Final(outcome) && pool.clock <= now as int
      requires Travelling(desk.queries, q)
      modifies this`desk, pool, timers`heap, timers.heap`heapIndex, timers.heap`owner, desk.timerOf`hasCallback
      modifies scheduler`ready, scheduler`readyHead, scheduler`readyTail, scheduler`readyCount, scheduler.ready`readyNext
      modifies desk.taskOf`queued, desk.taskOf`readyNext, desk.taskOf`awaits
      ensures Valid() && pool.config == old(pool.config) && pool.clock == now as int && !lost
      ensures desk == EndedDesk(old(desk), q, outcome, response, 0) && q !in old(desk).ended
      ensures old(desk).taskOf[q] != null && scheduler.ready == old(scheduler.ready) + if wake then [old(desk).taskOf[q]] else []
      ensures timers.Members() == old(timers.Members()) - {old(desk).timerOf[q]}
      ensures pool.slots == old(pool.slots)[old(desk).queries[q].id := None] && pool.pendingCount == old(pool.pendingCount) - 1
      ensures pool.endedAt == old(pool.endedAt)[old(desk).queries[q].id := now as int]
    {
      var d;
      d, lost := Conclude(pool, timers, scheduler, desk, q, outcome, response, wake, now, pick, caller, None);
      Put(d);
    }

    /** Ends a query that is in flight and schedules its task; any other query is left alone. */
    method Finish(q: nat, outcome: Outcome, response: seq<Byte>, now: Ticks, pick: nat, caller: nat) returns (ok: bool)
      requires Valid() && OnOwnerThread(caller) && Final(outcome) && pool.clock <= now as int
      modifies this`desk, pool, timers`heap, timers.heap`heapIndex, timers.heap`owner, desk.timerOf`hasCallback
      modifies scheduler`ready, scheduler`readyHead, scheduler`readyTail, scheduler`readyCount, scheduler.ready`readyNext
      modifies desk.taskOf`queued, desk.taskOf`readyNext, desk.taskOf`awaits
      ensures Valid() && pool.config == old(pool.config) && pool.clock <= now as int && (ok <==> old(Travelling(desk.queries, q)))
      ensures !ok ==>
                && desk == old(desk) && pool.slots == old(pool.slots) && pool.pendingCount == old(pool.pendingCount)
                && pool.endedAt == old(pool.endedAt) && timers.heap == old(timers.heap) && scheduler.ready == old(scheduler.ready)
      ensures ok ==>
                && desk == EndedDesk(old(desk), q, outcome, response, 0) && q !in old(desk).ended
                && old(desk).taskOf[q] != null && scheduler.ready == old(scheduler.ready) + [old(desk).taskOf[q]]
                && timers.Members() == old(timers.Members()) - {old(desk).timerOf[q]}
                && pool.slots == old(pool.slots)[old(desk).queries[q].id := None] && pool.pendingCount == old(pool.pendingCount) - 1
                && pool.endedAt == old(pool.endedAt)[old(desk).queries[q].id := now as int]
    {
      if q >= |desk.queries| || desk.queries[q].state != InFlight {
        return false;
      }
      var lost := End(q, outcome, response, true, now, pick, caller);
      ok := !lost;
    }

    /**
     * The frame that holds the query is destroyed: the query ends without its
     * task being scheduled. The channel stays in order exactly when that
     * happens on its own thread, or the query was not in flight.
     */
    method Abandon(q: nat, now: Ticks, pick: nat, caller: nat)
      requires Valid() && pool.clock <= now as int
      modifies this`desk, pool, timers`heap, timers.heap`heapIndex, timers.heap`owner, desk.timerOf`hasCallback
      modifies scheduler`ready, scheduler`readyHead, scheduler`readyTail, scheduler`readyCount, scheduler.ready`readyNext
      modifies desk.taskOf`queued, desk.taskOf`readyNext, desk.taskOf`awaits
      ensures Valid() <==> OnOwnerThread(caller) || !old(Travelling(desk.queries, q))
      ensures pool.config == old(pool.config) && pool.clock <= now as int && scheduler.ready == old(scheduler.ready)
      ensures !old(Travelling(desk.queries, q)) ==> desk == old(desk) && timers.heap == old(timers.heap) && pool.slots == old(pool.slots)
      ensures old(Travelling(desk.queries, q)) ==>
                && desk == EndedDesk(old(desk), q, Cancelled, [], One(!OnOwnerThread(caller))) && q !in old(desk).ended
                && timers.Members() == old(timers.Members()) - (if OnOwnerThread(caller) then {old(desk).timerOf[q]} else {})
                && pool.slots == old(pool.slots)[old(desk).queries[q].id := None] && pool.pendingCount == old(pool.pendingCount) - 1
                && pool.endedAt == old(pool.endedAt)[old(desk).queries[q].id := now as int]
    {
      if q >= |desk.queries| || desk.queries[q].state != InFlight {
        return;
      }
      if OnOwnerThread(caller) {
        var lost := End(q, Cancelled, [], false, now, pick, caller);
      } else {
        AbandonElsewhere(q, now, pick, caller);
      }
    }

    method AbandonElsewhere(q: nat, now: Ticks, pick: nat, caller: nat)
      requires Valid() && pool.clock <= now as int && !OnOwnerThread(caller) && Travelling(desk.queries, q)
      modifies this`desk, pool, timers`heap, timers.heap`heapIndex, timers.heap`owner, desk.timerOf`hasCallback, desk.taskOf`awaits
      ensures !Valid() && pool.config == old(pool.config) && pool.clock <= now as int && scheduler.ready == old(scheduler.ready)
      ensures desk == EndedDesk(old(desk), q, Cancelled, [], 1) && q !in old(desk).ended
      ensures timers.Members() == old(timers.Members()) && desk.timerOf[q] in timers.Members()
      ensures pool.slots == old(pool.slots)[old(desk).queries[q].id := None] && pool.pendingCount == old(pool.pendingCount) - 1
      ensures pool.endedAt == old(pool.endedAt)[old(desk).queries[q].id := now as int]
    {
      var d := DiscardElsewhere(pool, timers, desk, q, now, pick, caller);
      assert d.stats.invariantFailures > 0;
      desk := d;
    }

    /** The earliest timer expires or is cancelled: its query ends and the callback reports success to the heap. */
    method FireFront(expired: bool, now: Ticks, pick: nat, caller: nat) returns (q: nat, accepted: bool)
      requires Valid() && OnOwnerThread(caller) && pool.clock <= now as int && timers.heap != [] && timers.heap[0] in desk.timerOf
      modifies this`desk, pool, timers`heap, timers`invariantFailures, timers.heap`heapIndex, timers.heap`owner, timers.heap`hasCallback
      modifies desk.timerOf`hasCallback
      modifies scheduler`ready, scheduler`readyHead, scheduler`readyTail, scheduler`readyCount, scheduler.ready`readyNext
      modifies desk.taskOf`queued, desk.taskOf`readyNext, desk.taskOf`awaits
      ensures Valid() && pool.config == old(pool.config) && pool.clock <= now as int && accepted
      ensures timers.invariantFailures == old(timers.invariantFailures)
      ensures old(Travelling(desk.queries, q)) && old(desk).timerOf[q] == old(timers.heap[0])
      ensures desk == EndedDesk(old(desk), q, if expired then Timeout else Cancelled, [], 0) && q !in old(desk).ended
      ensures old(desk).taskOf[q] != null && scheduler.ready == old(scheduler.ready) + [old(desk).taskOf[q]]
      ensures timers.Members() == old(timers.Members()) - {old(desk).timerOf[q]}
      ensures pool.slots == old(pool.slots)[old(desk).queries[q].id := None] && pool.pendingCount == old(pool.pendingCount) - 1
      ensures pool.endedAt == old(pool.endedAt)[old(desk).queries[q].id := now as int]
    {
      var d, lost;
      var outcome := if expired then Timeout else Cancelled;
      q, d, lost := ConcludeFront(pool, timers, scheduler, desk, outcome, now, pick, caller);
      Put(d);
      accepted := !lost;
    }

    /** What `Begin` answers, from the state before it. */
    ghost function Answer(q: nat, task: Task, sent: bool, now: Ticks, caller: nat): BeginResult
      requires |pool.slots| == ID_SPACE && ValidConfig(pool.config)
      requires q < |desk.asked| && EncodableLabels(desk.asked[q].question.name.labels)
      reads this, pool, timers`accepting, task`scheduler
    {
      if !running || !accepting then ChannelClosed
      else if ownerThread != caller then OffThread
      else if task.scheduler != scheduler then WrongScheduler
      else if AllTaken(pool.slots, pool.endedAt, pool.config, now as int) then IdsExhausted
      else if !Writable(desk.asked[q]) then BadQuery
      else if !timers.accepting then ChannelClosed
      else if !sent then SendFailed
      else Suspended
    }

    /** A query is sent exactly when the channel runs and accepts on this thread, the task is its own, an id is to
        be had, the query can be written, timers are accepted and the socket takes it. */
    lemma SentExactly(q: nat, task: Task, sent: bool, now: Ticks, caller: nat)
      requires |pool.slots| == ID_SPACE && ValidConfig(pool.config)
      requires q < |desk.asked| && EncodableLabels(desk.asked[q].question.name.labels)
      ensures Answer(q, task, sent, now, caller) == Suspended <==>
                && running && accepting && ownerThread == caller && task.scheduler == scheduler
                && (exists id :: 0 <= id < pool.config.capacity && pool.slots[id].None?
                      && (id in pool.endedAt ==> pool.endedAt[id] + pool.config.idReuseGuard as int <= now as int || now == LAST_TICK))
                && !desk.asked[q].header.isResponse && desk.asked[q].header.opcode <= 15
                && 12 + LabelOctets(desk.asked[q].question.name.labels) + 5 <= 512
                && timers.accepting && sent
    {
      WritableExactly(desk.asked[q]);
    }

    /** An attempt to send a query, by a running channel on its thread. */
    method Try(q: nat, task: Task, sent: bool, now: Ticks, later: Ticks, picks: nat -> nat, caller: nat) returns (r: BeginResult, wire: seq<Byte>)
      requires Valid() && q < |desk.queries| && desk.queries[q].state == Idle && Active(scheduler, task)
      requires OnOwnerThread(caller) && accepting && task.scheduler == scheduler && pool.clock <= now as int <= later as int
      modifies this`desk, pool, timers`heap, timers`nextSequence, timers.heap`heapIndex, timers.heap`owner
      modifies desk.timerOf`hasCallback, desk.timerOf[q], task`awaits
      ensures Valid() && r == old(Answer(q, task, sent, now, caller))
      ensures |desk.queries| == |old(desk).queries| && desk == BegunDesk(old(desk), q, task, r, desk.queries[q].id)
      ensures pool.config == old(pool.config) && pool.endedAt == old(pool.endedAt) && pool.clock <= later as int
      ensures r == Suspended ==>
                && Sent(old(pool.slots), pool.slots, pool.endedAt, pool.config, desk.asked[q], q, desk.queries[q].id, now, wire)
                && timers.Members() == old(timers.Members()) + {desk.timerOf[q]} && desk.timerOf[q].deadline == desk.asked[q].deadline
      ensures r != Suspended ==>
                && pool.slots == old(pool.slots) && timers.Members() == old(timers.Members())
                && task.awaits == None
    {
      var d;
      r, wire, d := Engage(pool, timers, scheduler, desk, q, task, sent, now, later, picks, caller);
      Put(d);
    }

    /**
     * Sends a query, exactly when nothing stands in the way. Only a query that
     * was sent stays in flight: otherwise the slots, the timers and the
     * waiting tasks are as before.
     */
    method Begin(q: nat, task: Task, sent: bool, now: Ticks, later: Ticks, picks: nat -> nat, caller: nat) returns (r: BeginResult, wire: seq<Byte>)
      requires Valid() && q < |desk.queries| && desk.queries[q].state == Idle && Active(scheduler, task)
      requires pool.clock <= now as int <= later as int
      modifies this`desk, pool, timers`heap, timers`nextSequence, timers.heap`heapIndex, timers.heap`owner
      modifies desk.timerOf`hasCallback, desk.timerOf[q], task`awaits
      ensures Valid() && r == old(Answer(q, task, sent, now, caller))
      ensures |desk.queries| == |old(desk).queries| && desk == BegunDesk(old(desk), q, task, r, desk.queries[q].id)
      ensures pool.config == old(pool.config) && pool.endedAt == old(pool.endedAt) && pool.clock <= later as int
      ensures r == Suspended ==>
                && Sent(old(pool.slots), pool.slots, pool.endedAt, pool.config, desk.asked[q], q, desk.queries[q].id, now, wire)
                && timers.Members() == old(timers.Members()) + {desk.timerOf[q]} && desk.timerOf[q].deadline == desk.asked[q].deadline
      ensures r != Suspended ==>
                && pool.slots == old(pool.slots) && timers.Members() == old(timers.Members())
                && task.awaits == None
    {
      wire := [];
      if !running || !accepting {
        return ChannelClosed, wire;
      }
      if !OnOwnerThread(caller) {
        return OffThread, wire;
      }
      if task.scheduler != scheduler {
        return WrongScheduler, wire;
      }
      r, wire := Try(q, task, sent, now, later, picks, caller);
    }

    /** A query that is not in flight is completed or fails without being sent. */
    method Settle(q: nat, verdict: Option<Outcome>)
      requires Valid() && q < |desk.queries| && desk.queries[q].state != InFlight
      modifies this`desk
      ensures Valid() && desk == Judged(old(desk), q, verdict)
    {
      var d := Judged(desk, q, verdict);
      SettleKeepsDesk(pool, timers, scheduler, desk, q, d.queries[q].state, d.replies[q]);
      Put(d);
    }

    /** What becomes of a query that is not sent; a used query fails. */
    ghost function Fate(q: nat, task: Task, sent: bool, now: Ticks, caller: nat): Option<Outcome>
      requires |pool.slots| == ID_SPACE && ValidConfig(pool.config)
      requires q < |desk.asked| == |desk.queries| && EncodableLabels(desk.asked[q].question.name.labels)
      reads this, pool, timers`accepting, task`scheduler
    {
      if desk.queries[q].state != Idle then None else Verdict(Answer(q, task, sent, now, caller))
    }

    /**
     * The task is suspended exactly when the query was sent; otherwise the
     * query is completed with the reason or has failed, and cannot be used again.
     */
    method Launch(q: nat, task: Task, sent: bool, now: Ticks, later: Ticks, picks: nat -> nat, caller: nat)
      returns (suspended: bool, wire: seq<Byte>)
      requires Valid() && q < |desk.queries| && desk.queries[q].state != InFlight && Active(scheduler, task)
      requires pool.clock <= now as int <= later as int
      modifies this`desk, pool, timers`heap, timers`nextSequence, timers.heap`heapIndex, timers.heap`owner
      modifies desk.timerOf`hasCallback, desk.timerOf[q], task`awaits
      ensures Valid() && |desk.queries| == |old(desk).queries| && pool.config == old(pool.config) && pool.clock <= later as int
      ensures suspended <==> old(desk).queries[q].state == Idle && old(Answer(q, task, sent, now, caller)) == Suspended
      ensures suspended ==>
                && desk == BegunDesk(old(desk), q, task, Suspended, desk.queries[q].id)
                && Sent(old(pool.slots), pool.slots, pool.endedAt, pool.config, desk.asked[q], q, desk.queries[q].id, now, wire)
                && timers.Members() == old(timers.Members()) + {desk.timerOf[q]} && desk.timerOf[q].deadline == desk.asked[q].deadline
      ensures !suspended ==>
                && desk == Judged(old(desk).(stats := desk.stats), q, old(Fate(q, task, sent, now, caller)))
                && desk.stats == (if old(desk).queries[q].state == Idle then Refused(old(desk).stats, old(Answer(q, task, sent, now, caller)))
                                  else old(desk).stats)
                && pool.slots == old(pool.slots) && timers.Members() == old(timers.Members())
                && task.awaits == None
    {
      if desk.queries[q].state == Idle {
        suspended, wire := LaunchIdle(q, task, sent, now, later, picks, caller);
      } else {
        Settle(q, None);
        suspended, wire := false, [];
      }
    }

    /** The same for a query that was not used yet. */
    method LaunchIdle(q: nat, task: Task, sent: bool, now: Ticks, later: Ticks, picks: nat -> nat, caller: nat)
      returns (suspended: bool, wire: seq<Byte>)
      requires Valid() && q < |desk.queries| && desk.queries[q].state == Idle && Active(scheduler, task)
      requires pool.clock <= now as int <= later as int
      modifies this`desk, pool, timers`heap, timers`nextSequence, timers.heap`heapIndex, timers.heap`owner
      modifies desk.timerOf`hasCallback, desk.timerOf[q], task`awaits
      ensures Valid() && |desk.queries| == |old(desk).queries| && pool.config == old(pool.config) && pool.clock <= later as int
      ensures suspended <==> old(Answer(q, task, sent, now, caller)) == Suspended
      ensures suspended ==>
                && desk == BegunDesk(old(desk), q, task, Suspended, desk.queries[q].id)
                && Sent(old(pool.slots), pool.slots, pool.endedAt, pool.config, desk.asked[q], q, desk.queries[q].id, now, wire)
                && timers.Members() == old(timers.Members()) + {desk.timerOf[q]} && desk.timerOf[q].deadline == desk.asked[q].deadline
      ensures !suspended ==>
                && desk == Judged(old(desk).(stats := desk.stats), q, Verdict(old(Answer(q, task, sent, now, caller))))
                && desk.stats == Refused(old(desk).stats, old(Answer(q, task, sent, now, caller)))
                && pool.slots == old(pool.slots) && timers.Members() == old(timers.Members())
                && task.awaits == None
    {
      var r;
      r, wire := Begin(q, task, sent, now, later, picks, caller);
      suspended := r == Suspended;
      if !suspended {
        Settle(q, Verdict(r));
      }
    }

    /** A task awaits a query; a task that was told to stop, or that has no scheduler, sends nothing. */
    method Await(q: nat, task: Task, stopRequested: bool, sent: bool, now: Ticks, later: Ticks, picks: nat -> nat, caller: nat)
      returns (suspended: bool, wire: seq<Byte>)
      requires Valid() && q < |desk.queries| && desk.queries[q].state != InFlight && Active(scheduler, task)
      requires pool.clock <= now as int <= later as int
      modifies this`desk, pool, timers`heap, timers`nextSequence, timers.heap`heapIndex, timers.heap`owner
      modifies desk.timerOf`hasCallback, desk.timerOf[q], task`awaits
      ensures Valid() && |desk.queries| == |old(desk).queries| && pool.config == old(pool.config) && pool.clock <= later as int
      ensures suspended <==> task.scheduler != null && !stopRequested
                             && old(desk).queries[q].state == Idle && old(Answer(q, task, sent, now, caller)) == Suspended
      ensures suspended ==> Travelling(desk.queries, q) && desk.taskOf[q] == task
      ensures !suspended ==>
                && desk.queries[q].state in {Completed, Failed} && pool.slots == old(pool.slots) && timers.Members() == old(timers.Members())
                && task.awaits == None
      ensures task.scheduler == null ==> desk == Judged(old(desk), q, None)
      ensures task.scheduler != null && stopRequested ==> desk == Judged(old(desk), q, Some(Cancelled))
    {
      if task.scheduler == null || stopRequested {
        Settle(q, if task.scheduler == null then None else Some(Cancelled));
        return false, [];
      }
      suspended, wire := Launch(q, task, sent, now, later, picks, caller);
    }

    /** A resumed task gets the reply of a completed query, unless it was cancelled. */
    method Resume(q: nat) returns (r: Result<Reply, ResumeError>)
      requires Valid() && q < |desk.queries|
      ensures r.Ok? <==> desk.queries[q].state == Completed && desk.replies[q].value.outcome != Cancelled
      ensures r.Ok? ==> desk.replies[q] == Some(r.value)
      ensures Travelling(desk.queries, q) ==> r == Err(NotCompleted)
    {
      var state := desk.queries[q].state;
      if state == Failed {
        return Err(QueryFailed);
      }
      if state != Completed {
        return Err(NotCompleted);
      }
      var reply := desk.replies[q].value;
      r := if reply.outcome == Cancelled then Err(OperationCancelled) else Ok(reply);
    }

    /** Counts a datagram that ended no query. */
    method Tally(stats: Stats)
      requires Valid() && stats.queriesSent == desk.stats.queriesSent && Ended(stats) == Ended(desk.stats)
      requires stats.invariantFailures == desk.stats.invariantFailures
      modifies this`desk
      ensures Valid() && desk == old(desk).(stats := stats)
    {
      TallyKeepsDesk(pool, timers, scheduler, desk, stats);
      Put(desk.(stats := stats));
    }

    /** What a datagram does: it ends the query it answers, or is counted. */
    twostate predicate Handled(packet: seq<Byte>, truncated: bool, new parsed: Result<Message, ParseError>, caller: nat, r: PacketResult)
      requires old(|pool.slots| == ID_SPACE && |desk.asked| == |desk.queries| == |desk.replies| == |desk.taskOf|)
      reads this, pool, scheduler
    {
      && (r == InvariantFailure <==> !OnOwnerThread(caller))
      && (r == Matched <==> OnOwnerThread(caller) && Expected(packet, truncated, parsed, old(pool.slots), old(desk).asked, old(pool.config).capacity))
      && (r == InvariantFailure ==> desk == old(desk) && scheduler.ready == old(scheduler.ready))
      && (r == Invalid ==>
            desk == old(desk).(stats := old(desk).stats.(invalidResponses := old(desk).stats.invalidResponses + 1))
            && scheduler.ready == old(scheduler.ready))
      && (r == Unmatched ==>
            desk == old(desk).(stats := old(desk).stats.(unmatchedResponses := old(desk).stats.unmatchedResponses + 1))
            && scheduler.ready == old(scheduler.ready))
      && (r == Matched ==>
            var q := old(pool.slots)[ReadU16(packet, 0).value].value;
            && old(Travelling(desk.queries, q)) && q !in old(desk).ended && old(desk).taskOf[q] != null
            && desk == EndedDesk(old(desk), q, Response, Readdressed(packet, old(desk).asked[q].header.id), 0)
            && scheduler.ready == old(scheduler.ready) + [old(desk).taskOf[q]])
    }

    /**
     * Expiry: exactly the due queries end as timeouts, the earliest first, up
     * to the budget, and their tasks are scheduled in that order.
     */
    method ExpireDue(now: Ticks, budget: nat, pick: nat, caller: nat, ghost due: seq<Key>) returns (dispatched: nat, ghost fired: seq<nat>)
      requires Valid() && OnOwnerThread(caller) && pool.clock <= now as int && Ours(timers.heap, desk.timerOf) && DueAt(desk.timerOf, due)
      modifies this`desk, pool, timers`heap, timers`invariantFailures, TimersOf(timers.heap, desk.timerOf)`heapIndex
      modifies TimersOf(timers.heap, desk.timerOf)`owner, TimersOf(timers.heap, desk.timerOf)`hasCallback
      modifies scheduler`ready, scheduler`readyHead, scheduler`readyTail, scheduler`readyCount, TasksOf(scheduler.ready, desk.taskOf)`queued
      modifies TasksOf(scheduler.ready, desk.taskOf)`readyNext, TasksOf(scheduler.ready, desk.taskOf)`awaits
      ensures Valid() && pool.config == old(pool.config) && pool.clock <= now as int && timers.invariantFailures == old(timers.invariantFailures)
      ensures Expired(old(desk), old(scheduler.ready), due, fired, desk, scheduler.ready) && dispatched == |fired| <= budget
      ensures AllDue(due, fired, now)
      ensures |fired| < budget ==> NoneDue(desk.queries, due, now)
    {
      OwnCovered(scheduler.ready, timers.heap, desk);
      var d;
      d, dispatched, fired := ExpireDesk(pool, timers, scheduler, desk, now, budget, pick, caller, TasksOf(scheduler.ready, desk.taskOf),
                                         TimersOf(timers.heap, desk.timerOf), due);
      Put(d);
    }

    /** Running the tasks that are ready keeps every query as it is, when none of them waits for one. */
    method RunTasks(budget: nat, caller: nat, wakes: nat -> seq<Task>, ghost tasks: set<Task>) returns (resumed: seq<Task>)
      requires Valid() && scheduler.FlagsMatch(tasks) && scheduler.Within(tasks) && forall t :: t in tasks ==> t.awaits == None
      requires forall i: nat, k: nat :: k < |wakes(i)| ==> wakes(i)[k] in tasks
      modifies scheduler`ready, scheduler`readyHead, scheduler`readyTail, scheduler`readyCount, tasks`queued, tasks`readyNext
      ensures Valid() && scheduler.FlagsMatch(tasks) && scheduler.Within(tasks)
      ensures !(scheduler.running && scheduler.ownerThread == caller) ==> resumed == [] && scheduler.ready == old(scheduler.ready)
      ensures scheduler.running && scheduler.ownerThread == caller ==>
                (resumed, scheduler.ready) == Scheduler.Dispatch([], old(scheduler.ready), wakes, scheduler.Live(tasks), budget)
    {
      resumed := RunWaiting(scheduler, desk.queries, desk.taskOf, budget, caller, wakes, tasks);
    }

    /** Ends the query that was recognised, or counts the datagram. */
    method Deliver(r: PacketResult, q: nat, response: seq<Byte>, now: Ticks, pick: nat, caller: nat) returns (ok: bool)
      requires Valid() && OnOwnerThread(caller) && pool.clock <= now as int && r != InvariantFailure
      requires r == Matched ==> Travelling(desk.queries, q)
      modifies this`desk, pool, timers`heap, timers.heap`heapIndex, timers.heap`owner, desk.timerOf`hasCallback
      modifies scheduler`ready, scheduler`readyHead, scheduler`readyTail, scheduler`readyCount, scheduler.ready`readyNext
      modifies desk.taskOf`queued, desk.taskOf`readyNext, desk.taskOf`awaits
      ensures Valid() && ok && pool.config == old(pool.config) && pool.clock <= now as int
      ensures r == Invalid ==>
                desk == old(desk).(stats := old(desk).stats.(invalidResponses := old(desk).stats.invalidResponses + 1))
                && scheduler.ready == old(scheduler.ready)
      ensures r == Unmatched ==>
                desk == old(desk).(stats := old(desk).stats.(unmatchedResponses := old(desk).stats.unmatchedResponses + 1))
                && scheduler.ready == old(scheduler.ready)
      ensures r == Matched ==>
                && desk == EndedDesk(old(desk), q, Response, response, 0) && q !in old(desk).ended
                && old(desk).taskOf[q] != null && scheduler.ready == old(scheduler.ready) + [old(desk).taskOf[q]]
    {
      ok := true;
      if r == Invalid {
        Tally(desk.stats.(invalidResponses := desk.stats.invalidResponses + 1));
      } else if r == Unmatched {
        Tally(desk.stats.(unmatchedResponses := desk.stats.unmatchedResponses + 1));
      } else {
        ok := Finish(q, Response, response, now, pick, caller);
      }
    }

    method HandleParsed(packet: seq<Byte>, truncated: bool, parsed: Result<Message, ParseError>, now: Ticks, caller: nat, pick: nat)
      returns (r: PacketResult)
      requires Valid() && pool.clock <= now as int
      modifies this`desk, pool, timers`heap, timers.heap`heapIndex, timers.heap`owner, desk.timerOf`hasCallback
      modifies scheduler`ready, scheduler`readyHead, scheduler`readyTail, scheduler`readyCount, scheduler.ready`readyNext
      modifies desk.taskOf`queued, desk.taskOf`readyNext, desk.taskOf`awaits
      ensures Valid() && pool.config == old(pool.config) && pool.clock <= now as int && Handled(packet, truncated, parsed, caller, r)
    {
      if !OnOwnerThread(caller) {
        return InvariantFailure;
      }
      var q, response;
      r, q, response := Recognise(packet, truncated, parsed, pool.slots, desk.queries, desk.asked, pool.config.capacity);
      var ok := Deliver(r, q, response, now, pick, caller);
      r := if ok then r else InvariantFailure;
    }

    /**
     * A datagram ends a query exactly when it answers it; the client then gets
     * the same octets under its own id. Any other datagram changes no query.
     */
    method HandleDatagram(packet: seq<Byte>, truncated: bool, now: Ticks, caller: nat, pick: nat)
      returns (r: PacketResult, ghost parsed: Result<Message, ParseError>)
      requires Valid() && pool.clock <= now as int
      modifies this`desk, pool, timers`heap, timers.heap`heapIndex, timers.heap`owner, desk.timerOf`hasCallback
      modifies scheduler`ready, scheduler`readyHead, scheduler`readyTail, scheduler`readyCount, scheduler.ready`readyNext
      modifies desk.taskOf`queued, desk.taskOf`readyNext, desk.taskOf`awaits
      ensures Valid() && pool.config == old(pool.config) && pool.clock <= now as int && Handled(packet, truncated, parsed, caller, r)
      ensures ReadAs(packet, parsed)
    {
      var message := ReadMessage(packet);
      r := HandleParsed(packet, truncated, message, now, caller, pick);
      parsed := message;
    }

    /** The audit of an idle pool passes, so it raises no counter. */
    method Audit() returns (sound: bool)
      requires Valid() && pool.pendingCount == 0
      modifies this`desk
      ensures Valid() && sound && desk == old(desk) && NoneTravelling(desk.queries)
    {
      sound := pool.ValidateIdPool();
      IdleSlots(pool.freeIds, pool.retired, pool.slots, pool.states, pool.config.capacity);
      Tally(Raised(desk.stats, !sound));
    }

    /** Stopping succeeds exactly when no query is pending. */
    method Stop(caller: nat) returns (ok: bool)
      requires Valid()
      modifies this`running, this`accepting, this`desk
      ensures Valid() && (ok <==> pool.pendingCount == 0 && (old(running) ==> ownerThread == caller)) && desk == old(desk)
      ensures if ok then !running && !accepting else running == old(running) && accepting == old(accepting)
    {
      if running && !OnOwnerThread(caller) {
        return false;
      }
      if pool.pendingCount != 0 {
        return false;
      }
      ok := Audit();
      if ok {
        running, accepting := false, false;
        assert DeskOk(pool, timers, scheduler, desk, None);
      }
    }

    /** A closed channel sends nothing more. */
    method Close(caller: nat) returns (ok: bool)
      requires Valid()
      modifies this`accepting
      ensures Valid() && (ok <==> running ==> ownerThread == caller) && accepting == (old(accepting) && !ok)
    {
      if running && !OnOwnerThread(caller) {
        return false;
      }
      accepting := false;
      ok := true;
    }

    /** Every query in flight ends with `outcome`, and their tasks are scheduled in the order of the slots. */
    method FailAll(outcome: Outcome, now: Ticks, caller: nat, pick: nat) returns (completed: nat)
      requires Valid() && pool.clock <= now as int
      modifies this`desk, pool, timers`heap, TimersOf(timers.heap, desk.timerOf)`heapIndex, TimersOf(timers.heap, desk.timerOf)`owner
      modifies TimersOf(timers.heap, desk.timerOf)`hasCallback
      modifies scheduler`ready, scheduler`readyHead, scheduler`readyTail, scheduler`readyCount, TasksOf(scheduler.ready, desk.taskOf)`queued
      modifies TasksOf(scheduler.ready, desk.taskOf)`readyNext, TasksOf(scheduler.ready, desk.taskOf)`awaits
      ensures Valid() && pool.config == old(pool.config) && pool.clock <= now as int
      ensures pool.config.capacity <= |old(pool.slots)| && SlotsWithin(old(pool.slots), old(desk))
      ensures !OnOwnerThread(caller) || outcome !in {Cancelled, SocketError} ==>
                completed == 0 && desk == old(desk) && scheduler.ready == old(scheduler.ready) && pool.slots == old(pool.slots)
      ensures OnOwnerThread(caller) && outcome in {Cancelled, SocketError} ==>
                && completed == old(pool.pendingCount) && pool.pendingCount == 0
                && desk == FailedDesk(old(desk), old(pool.slots), outcome, pool.config.capacity)
                && scheduler.ready == old(scheduler.ready) + WaitingTasks(old(pool.slots), old(desk).taskOf, pool.config.capacity)
    {
      completed := 0;
      if OnOwnerThread(caller) && outcome in {Cancelled, SocketError} {
        OwnCovered(scheduler.ready, timers.heap, desk);
        var d;
        d, completed := Sweep(pool, timers, scheduler, desk, outcome, now, pick, caller, TasksOf(scheduler.ready, desk.taskOf),
                              TimersOf(timers.heap, desk.timerOf));
        NothingPending(pool.freeIds, pool.retired, pool.slots, pool.states, pool.config.capacity);
        Put(d);
      }
    }

    /** Shutting down on the channel's thread is clean: every query ends as cancelled, and the channel stops. */
    method Shutdown(now: Ticks, caller: nat, pick: nat) returns (clean: bool)
      requires Valid() && OnOwnerThread(caller) && pool.clock <= now as int
      modifies this`running, this`accepting, this`desk, pool, timers`heap, TimersOf(timers.heap, desk.timerOf)`heapIndex
      modifies TimersOf(timers.heap, desk.timerOf)`owner, TimersOf(timers.heap, desk.timerOf)`hasCallback
      modifies scheduler`ready, scheduler`readyHead, scheduler`readyTail, scheduler`readyCount, TasksOf(scheduler.ready, desk.taskOf)`queued
      modifies TasksOf(scheduler.ready, desk.taskOf)`readyNext, TasksOf(scheduler.ready, desk.taskOf)`awaits
      ensures Valid() && clean && !running && !accepting && pool.pendingCount == 0 && pool.config == old(pool.config)
      ensures pool.config.capacity <= |old(pool.slots)| && SlotsWithin(old(pool.slots), old(desk))
      ensures desk == FailedDesk(old(desk), old(pool.slots), Cancelled, pool.config.capacity)
      ensures scheduler.ready == old(scheduler.ready) + WaitingTasks(old(pool.slots), old(desk).taskOf, pool.config.capacity)
    {
      var closed := Close(caller);
      var cancelled := FailAll(Cancelled, now, caller, pick);
      var stopped := Stop(caller);
      clean := closed && stopped;
    }

    /** A stopped channel starts again with fresh statistics; ids that are still guarded stay in quarantine. */
    method Restart(config: ChannelConfig, now: Ticks, thread: nat, drained: bool, picks: nat -> nat) returns (ok: bool)
      requires Valid() && pool.clock <= now as int
      modifies this`running, this`accepting, this`ownerThread, this`desk, pool`states, pool`freeIds, pool`retired, pool`clock
      ensures Valid()
      ensures ok <==> && !old(running) && pool.pendingCount == 0 && config == pool.config && drained
                      && scheduler.running && scheduler.ownerThread == thread && timers.OnOwnerThread(thread)
      ensures ok ==> running && accepting && ownerThread == thread && desk == old(desk).(stats := desk.stats, ended := {})
                     && desk.stats.queriesSent == 0
      ensures !ok ==> running == old(running) && accepting == old(accepting) && desk == old(desk)
    {
      if running || pool.pendingCount != 0 || !scheduler.running || scheduler.ownerThread != thread || !timers.OnOwnerThread(thread)
         || !ValidConfig(config) || config != pool.config || !drained {
        return false;
      }
      var d;
      ok, d := RenewDesk(pool, timers, scheduler, desk, now, picks);
      Reopen(thread, d);
    }

    method Reopen(thread: nat, d: Desk)
      requires DeskOk(pool, timers, scheduler, d, None) && timers.OnOwnerThread(thread) && scheduler.running && scheduler.ownerThread == thread
      modifies this`running, this`accepting, this`ownerThread, this`desk
      ensures Valid() && running && accepting && ownerThread == thread && desk == d
    {
      ownerThread, running, accepting := thread, true, true;
      assert DeskOk(pool, timers, scheduler, d, None);
      Put(d);
    }
  }

  // ------------------------------------------------------- one exchange

  /** A channel with its own pool, timers and scheduler, all on one thread, and a task that runs there. */
  method OpenChannel(config: ChannelConfig, order: seq<nat>, thread: nat) returns (channel: UpstreamChannel, task: Task)
    requires ValidConfig(config)
    requires |order| == config.capacity && NoRepeats(order) && forall i :: 0 <= i < |order| ==> order[i] < config.capacity
    ensures channel.Valid() && channel.OnOwnerThread(thread) && channel.accepting && channel.timers.accepting && channel.desk.queries == []
    ensures fresh(channel) && fresh(channel.pool) && fresh(channel.timers) && fresh(channel.scheduler)
    ensures channel.timers.heap == [] && channel.scheduler.ready == [] && channel.desk.stats.queriesSent == 0
    ensures channel.pool.pendingCount == 0 && channel.pool.config == config && channel.pool.endedAt == map[]
    ensures channel.pool.clock == FIRST_TICK as int
    ensures Active(channel.scheduler, task) && task.scheduler == channel.scheduler && fresh(task)
    ensures |channel.pool.slots| == ID_SPACE && forall id :: 0 <= id < ID_SPACE ==> channel.pool.slots[id].None?
  {
    var pool := new IdPool(config, order);
    var scheduler := new Scheduler.Scheduler();
    var ok := scheduler.Start(thread);
    var timers := new TimerQueue();
    ok := timers.Start(thread, ok);
    task := new Scheduler.Task(scheduler);
    channel := new UpstreamChannel(pool, timers, scheduler, thread);
  }

  lemma NotAllTaken(pool: IdPool, queries: Queries, stats: Stats, ended: set<nat>, now: int)
    requires BooksOk(pool, queries, stats, ended) && NoneTravelling(queries) && pool.endedAt == map[]
    ensures !AllTaken(pool.slots, pool.endedAt, pool.config, now)
  {
    assert pool.slots[0].None?;
  }

  /** A channel that runs on this thread, with one query that was not sent yet and every id free. */
  ghost predicate Asking(channel: UpstreamChannel, header: Header, question: Question, now: Ticks, caller: nat)
    reads channel, channel.pool, channel.timers, channel.timers.heap, channel.desk.timerOf`owner, channel.desk.timerOf`heapIndex
    reads channel.scheduler, channel.scheduler.ready`queued, channel.scheduler.ready`readyNext
    reads channel.desk.taskOf`queued, channel.desk.taskOf`scheduler, channel.desk.taskOf`done, channel.desk.taskOf`awaits
  {
    && channel.Valid() && channel.OnOwnerThread(caller) && channel.accepting && channel.timers.accepting && channel.timers.heap == []
    && channel.desk.queries == [Query(Idle, 0)] && channel.desk.asked[0].header == header && channel.desk.asked[0].question == question
    && channel.pool.clock <= now as int && !AllTaken(channel.pool.slots, channel.pool.endedAt, channel.pool.config, now as int)
  }

  /** The first query of a channel with every id free. */
  method AskIdle(channel: UpstreamChannel, ghost task: Task, header: Header, question: Question, now: Ticks, caller: nat)
    requires channel.Valid() && channel.OnOwnerThread(caller) && channel.accepting && channel.timers.accepting && channel.desk.queries == []
    requires channel.timers.heap == [] && channel.pool.endedAt == map[] && channel.pool.clock <= now as int
    requires EncodableLabels(question.name.labels) && Active(channel.scheduler, task)
    modifies channel`desk
    ensures Asking(channel, header, question, now, caller) && fresh(channel.desk.timerOf[0]) && Active(channel.scheduler, task)
    ensures channel.scheduler.ready == old(channel.scheduler.ready)
  {
    var q := channel.Ask(header, question, now);
    NotAllTaken(channel.pool, channel.desk.queries, channel.desk.stats, channel.desk.ended, now as int);
  }

  method AskFirst(config: ChannelConfig, order: seq<nat>, header: Header, question: Question, now: Ticks, thread: nat)
    returns (channel: UpstreamChannel, task: Task)
    requires ValidConfig(config) && EncodableLabels(question.name.labels)
    requires |order| == config.capacity && NoRepeats(order) && forall i :: 0 <= i < |order| ==> order[i] < config.capacity
    ensures Asking(channel, header, question, now, thread) && channel.scheduler.ready == []
    ensures Active(channel.scheduler, task) && task.scheduler == channel.scheduler && fresh(task)
    ensures fresh(channel) && fresh(channel.pool) && fresh(channel.timers) && fresh(channel.scheduler) && fresh(channel.desk.timerOf[0])
  {
    channel, task := OpenChannel(config, order, thread);
    AskIdle(channel, task, header, question, now, thread);
  }

  /** A task awaits the first query. The query is sent exactly when it can be written. */
  method AwaitFirst(channel: UpstreamChannel, task: Task, ghost header: Header, ghost question: Question, now: Ticks, picks: nat -> nat, caller: nat)
    returns (sent: bool, wire: seq<Byte>)
    requires Asking(channel, header, question, now, caller) && Active(channel.scheduler, task) && task.scheduler == channel.scheduler
    modifies channel`desk, channel.pool, channel.timers`heap, channel.timers`nextSequence, channel.timers.heap`heapIndex
    modifies channel.timers.heap`owner, channel.desk.timerOf, task`awaits
    ensures channel.Valid() && channel.pool.clock <= now as int && EncodableLabels(question.name.labels)
    ensures sent <==> Writable(Asked(header, question, now))
    ensures |channel.desk.queries| == 1 && channel.desk.asked == old(channel.desk).asked && channel.desk.timerOf == old(channel.desk).timerOf
    ensures sent ==> WrittenAs(channel.desk.asked[0], channel.desk.queries[0].id, wire)
    ensures if sent then Travelling(channel.desk.queries, 0) && channel.desk.taskOf[0] == task
            else channel.desk.queries[0].state == Completed && channel.desk.replies[0] == Some(Reply(InvalidQuery, []))
    ensures channel.OnOwnerThread(caller) && channel.scheduler.ready == old(channel.scheduler.ready)
    ensures channel.timers.Members() <= {channel.desk.timerOf[0]}
  {
    sent, wire := channel.Launch(0, task, true, now, now, picks, caller);
  }

  /** When there is one query, and it is in flight, a datagram is expected exactly when it answers it. */
  lemma ExpectedByOne(pool: IdPool, queries: Queries, stats: Stats, ended: set<nat>, packet: seq<Byte>, parsed: Result<Message, ParseError>,
                      asked: seq<Asked>)
    requires BooksOk(pool, queries, stats, ended) && |queries| == |asked| == 1 && Travelling(queries, 0)
    ensures Expected(packet, false, parsed, pool.slots, asked, pool.config.capacity) <==> Answering(packet, parsed, queries[0].id, asked[0])
    ensures queries[0].id < |pool.slots| && pool.slots[queries[0].id] == Some(0)
  {
    assert pool.states[queries[0].id] == Pending;
  }

  /** The only query of a channel gets a datagram. */
  method AnswerOne(channel: UpstreamChannel, packet: seq<Byte>, now: Ticks, pick: nat, caller: nat)
    returns (matched: bool, ghost parsed: Result<Message, ParseError>)
    requires channel.Valid() && channel.OnOwnerThread(caller) && channel.pool.clock <= now as int
    requires |channel.desk.queries| == 1 && Travelling(channel.desk.queries, 0)
    modifies channel`desk, channel.pool, channel.timers`heap, channel.timers.heap`heapIndex, channel.timers.heap`owner
    modifies channel.desk.timerOf`hasCallback, channel.scheduler`ready, channel.scheduler`readyHead, channel.scheduler`readyTail
    modifies channel.scheduler`readyCount, channel.scheduler.ready`readyNext
    modifies channel.desk.taskOf`queued, channel.desk.taskOf`readyNext, channel.desk.taskOf`awaits
    ensures channel.Valid() && |channel.desk.queries| == 1 && ReadAs(packet, parsed)
    ensures matched <==> Answering(packet, parsed, old(channel.desk).queries[0].id, old(channel.desk).asked[0])
    ensures channel.desk.queries[0].id == old(channel.desk).queries[0].id
    ensures matched ==>
              && |packet| >= 2 && channel.desk.queries[0].state == Completed
              && channel.desk.replies[0] == Some(Reply(Response, Readdressed(packet, old(channel.desk).asked[0].header.id)))
              && old(channel.desk).taskOf[0] != null && channel.scheduler.ready == old(channel.scheduler.ready) + [old(channel.desk).taskOf[0]]
    ensures !matched ==>
              Travelling(channel.desk.queries, 0) && channel.scheduler.ready == old(channel.scheduler.ready)
  {
    forall p: Result<Message, ParseError>
      ensures Expected(packet, false, p, channel.pool.slots, channel.desk.asked, channel.pool.config.capacity)
              <==> Answering(packet, p, channel.desk.queries[0].id, channel.desk.asked[0])
    {
      ExpectedByOne(channel.pool, channel.desk.queries, channel.desk.stats, channel.desk.ended, packet, p, channel.desk.asked);
    }
    var r;
    r, parsed := channel.HandleDatagram(packet, false, now, caller, pick);
    matched := r == Matched;
  }

  /** Opens a channel and sends its first query. */
  method SendFirst(config: ChannelConfig, order: seq<nat>, header: Header, question: Question, now: Ticks, picks: nat -> nat, thread: nat)
    returns (channel: UpstreamChannel, task: Task, sent: bool, wire: seq<Byte>)
    requires ValidConfig(config) && EncodableLabels(question.name.labels)
    requires |order| == config.capacity && NoRepeats(order) && forall i :: 0 <= i < |order| ==> order[i] < config.capacity
    ensures channel.Valid() && channel.OnOwnerThread(thread) && channel.pool.clock <= now as int && channel.scheduler.ready == []
    ensures sent <==> Writable(Asked(header, question, now))
    ensures |channel.desk.queries| == |channel.desk.timerOf| == 1
    ensures channel.desk.asked[0].header == header && channel.desk.asked[0].question == question
    ensures sent ==> WrittenAs(channel.desk.asked[0], channel.desk.queries[0].id, wire)
    ensures if sent then Travelling(channel.desk.queries, 0) && channel.desk.taskOf[0] == task
            else channel.desk.queries[0].state == Completed && channel.desk.replies[0] == Some(Reply(InvalidQuery, []))
    ensures fresh(channel) && fresh(channel.pool) && fresh(channel.timers) && fresh(channel.scheduler) && fresh(channel.desk.timerOf[0]) && fresh(task)
    ensures channel.timers.Members() <= {channel.desk.timerOf[0]}
  {
    channel, task := AskFirst(config, order, header, question, now, thread);
    sent, wire := AwaitFirst(channel, task, header, question, now, picks, thread);
  }

  /**
   * One query from the opening of a channel to the reply: a datagram that is
   * matched is handed to the task that asked, under the id the client used.
   */
  method Exchange(config: ChannelConfig, order: seq<nat>, header: Header, question: Question, respond: seq<Byte> -> seq<Byte>, asked: Ticks,
                  answered: Ticks, picks: nat -> nat, thread: nat)
    returns (channel: UpstreamChannel, task: Task, sent: bool, wire: seq<Byte>, packet: seq<Byte>, matched: bool,
             ghost parsed: Result<Message, ParseError>)
    requires ValidConfig(config) && EncodableLabels(question.name.labels) && asked <= answered
    requires |order| == config.capacity && NoRepeats(order) && forall i :: 0 <= i < |order| ==> order[i] < config.capacity
    ensures channel.Valid() && |channel.desk.queries| == |channel.desk.replies| == 1 && (sent <==> Writable(Asked(header, question, asked)))
    ensures !sent ==> !matched && channel.desk.replies[0] == Some(Reply(InvalidQuery, [])) && channel.scheduler.ready == []
    ensures sent ==>
              && WrittenAs(Asked(header, question, asked), channel.desk.queries[0].id, wire) && packet == respond(wire) && ReadAs(packet, parsed)
              && (matched <==> Answering(packet, parsed, channel.desk.queries[0].id, Asked(header, question, asked)))
    ensures sent && !matched ==> Travelling(channel.desk.queries, 0) && channel.scheduler.ready == []
    ensures matched ==>
              && |packet| >= 2 && channel.desk.replies[0] == Some(Reply(Response, Readdressed(packet, header.id)))
              && channel.scheduler.ready == [task]
  {
    channel, task, sent, wire := SendFirst(config, order, header, question, asked, picks, thread);
    packet, matched, parsed := respond(wire), false, Err(ParseError(UnexpectedEnd, 0));
    if !sent {
      return;
    }
    assert channel.desk.taskOf == [task] && channel.desk.timerOf == [channel.desk.timerOf[0]];
    forall i | 0 <= i < |channel.timers.heap| ensures fresh(channel.timers.heap[i]) {
      assert channel.timers.heap[i] in channel.timers.Members();
    }
    matched, parsed := AnswerOne(channel, packet, answered, 0, thread);
  }
}
