# Formal model of the DNS forwarder

A Dafny model of a DNS forwarder with hot-swappable blocklists, and proofs of
the properties its design rests on. Every file is one module; all files are
verified together (`dafny verify dfyconfig.toml`).

## What is modelled

**Snapshot publication** (`FilterPublication`, `PublicationProtocol`,
`PublicationProgress`). The shared publication state as an object, and a
transition system of all interleavings of publisher, reclaimer, supervisor,
workers and teardown. A step is the smallest piece of code another thread can
observe: the reclaimer's four loads of an epoch are separate steps. Two conditions of a step are obligations
of the worker threads rather than tests of the code: instance ids grow
(WorkerSupervisor.cpp:370), and a worker's local owner is released before its
instance quiesces (WorkerSupervisor.cpp:1240-1243). That publication is sealed
before the terminal detach and that only the holder of the credit gives it back
is proved of the controller in `ReportedUpdates`; what would happen without the
seal is stated exactly by `CommitAccounting`. `PublicationProgress` is the other
half of safety: what the workers have done lets the reclaimer go on.

**Update journal** (`UpdateJournal`, `UpdateOrder`, `RuleSets`,
`ReportedUpdates`). Commands between submitters, the writer thread, sealing
threads and the successor; they are published in the order of their acceptance.
`ReportedUpdates` steps the two protocols together, with the calls of the
controller as shared steps, and shows what a successful answer means for the
workers and what a failed one leaves behind.

**Blocklist** (`Words`, `CuckooFilter`, `RadixTree`, `DomainNames`,
`DomainBlocklist`). The hash is an arbitrary function to 64-bit words; XOR, mask
and multiplication are kept as the program has them.

**Codec** (`Wire`, `DnsMessages`, `DnsParser`, `DnsWriter`, `CachePolicy`,
`MessageRoundTrip`, `MessageGrammar`, `Datagrams`). `MessageGrammar` tells what a
packet must look like without a parser, and the parser accepts exactly that.
Message format, compression and limits are those of sections 2.3.4, 3.3, 4.1 and
4.1.4 of RFC 1035 and section 2 of RFC 3596; names compare as in section 3 of
RFC 4343.

**Timers, tasks and upstream ids** (`BinaryHeap`, `TimerQueue`, `Scheduler`,
`TransactionIds`, `UpstreamChannel`, `ReplyMatching`). The channel works on the
id pool, the intrusive timer heap and the linked ready queue themselves. The clock is an input
of each operation and does not run backwards; whether a datagram could be sent,
and what arrives, are inputs.

**Cache and recovery** (`DnsCache`, `WorkerRecovery`, `RecoveryBudget`). The
cache keeps a ghost history of puts that every hit is compared with. The record of a worker keeps a
log of attempts, creations, departures, delays and resets that is never cut; the
budget, and every verdict of the supervisor, is stated over that log for every run.

Where a loop or an object updates state in place, the model is a method or a
class proved against a specification function or stated property; the lemmas are
about those functions.

## Model

| member | source | states |
|---|---|---|
| `PublicationProtocol.GracePeriodSafety` | FilterPublication.cpp:315-442 | In every run of all interleavings: no live worker instance and no publication holds a snapshot that was or is being destroyed; once the loads of a scan found the cohort complete the record is the only owner, so the extra-owner fatal exit cannot be taken. |
| `PublicationProtocol.CompleteCohortReleased` | FilterPublication.cpp:513-538 | In every run, whenever the cohort of a pending record is complete, no live instance holds the record's owner. |
| `PublicationProtocol.UpdateVisibility` | FilterPublication.cpp:233-262 | In every run, a live instance holds at least every generation reported as converged, and is never more than one generation behind the published one nor ahead of it. |
| `PublicationProtocol.PublicationBookkeeping` | FilterPublication.cpp:573-607 | In every run: last reclaimed <= last converged <= current; a pending retired record implies a held credit and an owner one generation behind it; the byte counter equals the pending bytes until it saturates. |
| `PublicationProtocol.GenerationCountsCommits` | FilterPublication.cpp:177-231 | In every run the generation is the initial one plus the number of commits; no other step moves it. |
| `PublicationProgress.ServedScanCompletes` | FilterPublication.cpp:315-402 | Progress, in every run: once every cohort member has refreshed past the version or quiesced, a scan that no member's end disturbs is complete after four loads for each member; the record is then destroyed and its version reported as converged. |
| `PublicationProgress.ScanGivesUpOnlyAfterQuiesce` | FilterPublication.cpp:513-538 | Such a scan gives up only when a member ended after the scan began, which happens at most once for each. |
| `PublicationProgress.ServedStays` | FilterPublication.cpp:107-139 | In every run a member that has refreshed past a version, or quiesced, counts as released from then on. |
| `PublicationProgress.RefreshPossible` | FilterPublication.cpp:107-139 | A live instance can refresh whenever something is published; it then holds the published snapshot and has acknowledged its generation. |
| `PublicationProgress.CommitPossible` | FilterPublication.cpp:149-231 | An open publication with a free credit takes the next generation. |
| `ReportedUpdates.PublishedIsVisible` | FilterUpdateController.cpp:325-389 | In every joint run of publication and controller: whenever an update has been answered as published, every live worker instance holds its generation or a later one. |
| `ReportedUpdates.PublishedStaysVisible` | FilterUpdateController.cpp:306-322 | The same at every later time of the run, also for answers given by the successor. |
| `ReportedUpdates.FailedUpdateRestores` | FilterUpdateController.cpp:325-396 | In every joint run a command that fails leaves the published version as it was when the writer took it, leaves no credit held that was not held then, and never committed. |
| `ReportedUpdates.CreditAccount` | FilterPublication.cpp:149-175 | In every joint run the credit is held exactly by a pending record or by the writer that applies a command with it, never by both. |
| `ReportedUpdates.ObligationsMet` | FilterUpdateController.cpp:325-396 | In every joint run the controller and the teardown meet what the publication demands of its callers: only the holder returns the credit, and publication is sealed before the terminal detach. |
| `ReportedUpdates.RefusedOnlyWhenSealed` | FilterUpdateController.cpp:369-378 | A commit of the writer is refused only because publication was sealed meanwhile. |
| `ReportedUpdates.RejectedIsShutdown` | FilterUpdateController.cpp:369-378 | In every joint run an update whose commit is refused is answered as shutting down, never as an internal error. |
| `ReportedUpdates.SealIsFinal` | FilterPublication.cpp:263-274 | In every joint run, once publication is sealed it stays sealed and the published version never changes again. |
| `ReportedUpdates.InvAlways` | FilterUpdateController.cpp:103-456 | The invariant that links the two protocols holds in every state of a joint run. |
| `ReportedUpdates.StepKeepsInv` | FilterUpdateController.cpp:325-396 | Every shared step (credit, release, commit, seal, convergence, detach) and every step of one side keeps the link: the controller's knowledge of version, seal and watermark is exact. |
| `PublicationProtocol.TeardownIsSole` | FilterPublication.cpp:592-607 | A teardown that found both cohorts complete, by loads at different times, is the only owner of both snapshots. |
| `PublicationProtocol.TeardownNeverRefused` | FilterPublication.cpp:592-607 | In every run the owner test of the teardown does not fail after its cohort tests succeeded. |
| `PublicationProtocol.InvAlways` | FilterPublication.cpp:48-231 | The inductive invariant behind the run theorems holds in every reachable state. |
| `PublicationProtocol.CommitAccounting` | FilterPublication.cpp:208-223 | A commit keeps the byte account exactly when no detached snapshot has bytes: the exact condition under which skipping the seal is harmless. |
| `PublicationProtocol.UnsealedDetachLosesBytes` | FilterPublication.cpp:276-313 | A concrete run of detach without seal followed by a commit after which the byte account is wrong. |
| `PublicationProtocol.CompleteIsSole` | FilterPublication.cpp:357-371 | A scan that read every member as complete leaves the scanned record as the only owner of its snapshot, although the loads happened at different times. |
| `PublicationProtocol.ScanCompleteReleases` | FilterPublication.cpp:513-538 | Members found complete by separate loads stay released until the scan ends. |
| `PublicationProtocol.LoadKeeps` | FilterPublication.cpp:513-528 | Each single load of the member check (quiesced, first instance, observed, second instance) keeps the invariant. |
| `PublicationProtocol.CommitKeeps` | FilterPublication.cpp:177-231 | A commit freezes the cohort of all registered instances and keeps the invariant. |
| `PublicationProtocol.PublishKeeps` | FilterPublication.cpp:48-71 | Registration hands out the current snapshot and keeps the invariant. |
| `PublicationProtocol.SupervisorStepKeepsInv` | FilterPublication.cpp:48-105 | Every step of the supervisor keeps the invariant. |
| `PublicationProtocol.WorkerStepKeepsInv` | FilterPublication.cpp:107-139 | Every step of a worker keeps the invariant. |
| `PublicationProtocol.PublisherStepKeepsInv` | FilterPublication.cpp:149-313 | Every step of the publisher keeps the invariant. |
| `PublicationProtocol.ReclaimStepKeepsInv` | FilterPublication.cpp:315-476 | Every step of the reclaimer and of the teardown keeps the invariant. |
| `FilterPublication.FilterPublicationState.RegisterWorker` | FilterPublication.cpp:48-71 | Grants the active snapshot exactly when the slot is free and publication is open; the epoch is reset before the instance is published. |
| `FilterPublication.FilterPublicationState.MarkWorkerRegistered` | FilterPublication.cpp:73-90 | Succeeds exactly for the published instance that has observed the current generation; otherwise nothing changes. |
| `FilterPublication.FilterPublicationState.QuiesceWorker` | FilterPublication.cpp:92-105 | Raises the quiesced mark and frees the registry slot of exactly that instance. |
| `FilterPublication.FilterPublicationState.RefreshWorkerSnapshot` | FilterPublication.cpp:107-139 | Succeeds exactly for the published, registered instance that is not ahead; then the local owner is the active snapshot and the observed generation is the active one, with every other field and worker unchanged; otherwise nothing changes. |
| `FilterPublication.FilterPublicationState.TryAcquireRetirementCredit` | FilterPublication.cpp:149-165 | The single credit is taken exactly when it is free and publication is open. |
| `FilterPublication.FilterPublicationState.ReleaseUncommittedCredit` | FilterPublication.cpp:167-175 | The credit returns only when no record is pending. |
| `FilterPublication.FilterPublicationState.CollectCohort` | FilterPublication.cpp:196-206 | The cohort lists exactly the registered workers with their published instances, in order. |
| `FilterPublication.FilterPublicationState.CommitCandidate` | FilterPublication.cpp:177-231 | Ok exactly when no test fails, in the order of the tests; then the generation rises by one and the old active snapshot is the pending record; an error changes nothing. |
| `FilterPublication.CommitEffect` | FilterPublication.cpp:196-229 | A commit publishes the candidate with its counts, and retires the old snapshot with its bytes and exactly the registered instances as cohort; nothing else changes. |
| `FilterPublication.FilterPublicationState.DetachTerminalSnapshot` | FilterPublication.cpp:276-313 | The active snapshot becomes the terminal record with the cohort of that moment. |
| `FilterPublication.DetachEffect` | FilterPublication.cpp:276-313 | A detach moves the active snapshot with its version and bytes to the terminal record, and does nothing when there is none or one was detached before. |
| `FilterPublication.FilterPublicationState.IsCohortComplete` | FilterPublication.cpp:513-538 | The loop decides completeness of every member. |
| `FilterPublication.FilterPublicationState.BeginReclaimIteration` | FilterPublication.cpp:357-383 | Picks the next pending record and decides wait, fatal or destroy; convergence is recorded when the owner is taken out. |
| `FilterPublication.FilterPublicationState.EndReclaimIteration` | FilterPublication.cpp:384-402 | The record is cleared, its bytes are given back and a retired one returns the credit. |
| `FilterPublication.FilterPublicationState.DropRecord` | FilterPublication.cpp:573-591 | One record is reclaimed with its watermarks and, for the retired one, the credit. |
| `FilterPublication.FilterPublicationState.EmergencyReclaimConverged` | FilterPublication.cpp:470-476 | All or nothing: reclaims exactly when the reclaimer is gone, publication is sealed and every pending cohort is complete and solely owned. |
| `UpdateJournal.ExactlyOnePlace` | FilterUpdateController.cpp:103-232 | In every run each accepted update is in exactly one of queue, slot, hands of a canceller or successor, or answered. |
| `UpdateJournal.AnsweredOnce` | FilterUpdateController.cpp:398-419 | In every run an answer, once given, never changes. |
| `UpdateJournal.CommittedAnswers` | FilterUpdateController.cpp:280-396 | In every run an update is answered as published exactly when it committed, with the version it published and only after that version converged; the generation counts exactly the commits. |
| `UpdateOrder.PublishedInOrder` | FilterUpdateController.cpp:122-199 | In every run, of two updates answered as published the one accepted first has the lower generation. |
| `UpdateOrder.OrderAlways` | FilterUpdateController.cpp:122-389 | In every run queue, slot and commits are in the order of acceptance. |
| `UpdateOrder.WorkedOff` | FilterUpdateController.cpp:234-322 | From every sealed state of the journal that satisfies the invariant some path answers every accepted update. |
| `UpdateOrder.EveryoneCanBeAnswered` | FilterUpdateController.cpp:234-322 | From every state of every run some path answers every update accepted so far: no command is stuck. |
| `UpdateJournal.CancelledExactly` | FilterUpdateController.cpp:234-255 | Exactly the commands of the queue are answered as shutting down. |
| `UpdateJournal.QueueAccount` | FilterUpdateController.cpp:122-158 | In every run the queued byte counter is the sum over the queue and within its limit, and the queue within its length. |
| `UpdateJournal.InvAlways` | FilterUpdateController.cpp:103-456 | The inductive invariant of the journal holds in every reachable state, also when the writer is run again. |
| `UpdateJournal.EpilogueConsistent` | FilterUpdateController.cpp:421-456 | When the writer leaves, the slot is empty or holds a committed command: the reconciliation has nothing to repair, and every command keeps its one place. |
| `UpdateJournal.QueueStepKeepsInv` | FilterUpdateController.cpp:122-255 | Submission, taking, the two seals, cancelling and settling keep every command in exactly one place. |
| `UpdateJournal.WriterStepKeepsInv` | FilterUpdateController.cpp:325-396 | Every step of applying a command keeps the invariant. |
| `UpdateJournal.FilterUpdateController.SubmitReplace` | FilterUpdateController.cpp:122-158 | Accepted exactly when not sealed, fewer than 64 updates wait and the bytes fit; rejected in the order sealed, full, bytes; an accepted update goes to the end of the queue. |
| `UpdateJournal.FilterUpdateController.TakeNext` | FilterUpdateController.cpp:186-199 | The front command moves to the slot and its bytes leave the counter. |
| `UpdateJournal.FilterUpdateController.SealAndCancel` | FilterUpdateController.cpp:234-255 | Sealing empties the queue once and answers every command of it with a shutdown error. |
| `UpdateJournal.FilterUpdateController.ReconcileSlot` | FilterUpdateController.cpp:440-456 | A command found publishing is committed exactly when the publication carries its target version, else it is building again without a target; any other slot is left alone. |
| `UpdateJournal.FilterUpdateController.FinishRunner` | FilterUpdateController.cpp:421-438 | A leaving writer answers an uncommitted command and leaves a committed one for its successor. |
| `RuleSets.ValidateRuleSet` | FilterUpdateController.cpp:40-78 | Admits a rule set exactly when count, raw bytes and canonical bytes are within the limits, and returns both sums; error values name the limit that was exceeded. |
| `CuckooFilter.LoadLimitIsFloor` | CuckooFilter.cpp:24-27 | The overflow-free formula is the floor of 95 per cent. |
| `CuckooFilter.FingerprintOf` | CuckooFilter.cpp:137-141 | A fingerprint is never zero. |
| `CuckooFilter.LookupExactly` | CuckooFilter.cpp:83-98 | A lookup compares the fingerprint, the upper sixteen bits of the hash modulo 65535 plus one, with the slots of two buckets: the hash modulo the table size and its partner at the mixed fingerprint's distance. |
| `CuckooFilter.AlternateIsInvolution` | CuckooFilter.cpp:151-158 | In a power-of-two table the alternate index is in range, differs, and leads back. |
| `CuckooFilter.KickKeepsPresence` | CuckooFilter.cpp:111-130 | A kick loses nothing: whatever was findable is findable or in the hand. |
| `CuckooFilter.UndoKick` | CuckooFilter.cpp:116-134 | Undoing the last kick restores the table before it, also when a slot was displaced several times. |
| `CuckooFilter.WalksAgree` | CuckooFilter.cpp:111-130 | The walk of displacements is determined by table, bucket, fingerprint and generator state. |
| `CuckooFilter.NotStuck` | CuckooFilter.cpp:111-130 | A walk that comes to a bucket with room refutes that all displacements met full buckets. |
| `CuckooFilter.NoRoomTakesEight` | CuckooFilter.cpp:58-72 | Two full homes are eight used slots. |
| `CuckooFilter.Filter.Displace` | CuckooFilter.cpp:118-124 | One displacement out of a full bucket: nothing is lost, and the record takes it back. |
| `CuckooFilter.ItemsStayFindable` | CuckooFilter.cpp:41-81 | All items stay findable when their fingerprints do. |
| `CuckooFilter.NormalizedIsLeast` | CuckooFilter.cpp:15-22 | No smaller power of two is large enough. |
| `CuckooFilter.NormalizedLog` | CuckooFilter.cpp:15-22 | The bucket count is a power of two, at least the request and four, and half of it is too small. |
| `CuckooFilter.Filter.Contains` | CuckooFilter.cpp:83-98 | No false negatives: every item whose insertion succeeded is found. |
| `CuckooFilter.Filter.FindEmptySlot` | CuckooFilter.cpp:100-109 | Finds an empty slot exactly when the bucket is not full. |
| `CuckooFilter.Filter.KickOut` | CuckooFilter.cpp:111-135 | Either everything findable and the new fingerprint are findable, one more slot is used and the walk ended at the first free slot of a bucket; or the table is as before and the walk of exactly the maximum of displacements met full buckets only. |
| `CuckooFilter.Filter.Rollback` | CuckooFilter.cpp:132-133 | Replaying the history backwards restores every slot. |
| `CuckooFilter.Filter.Insert` | CuckooFilter.cpp:41-81 | Load limit reached exactly when a new item finds the table at its limit; kick limit reached exactly when, below it, both homes are full and the walk of the maximum of displacements from them meets full buckets only; so an item below the limit with a free slot in either home is inserted. Success makes it findable and loses none; failure leaves buckets, size and generator state unchanged. |
| `CuckooFilter.Filter.Place` | CuckooFilter.cpp:58-80 | Fails exactly when both homes are full and the walk is stuck; else the first free slot of the first home, of the second, or of the end of the walk is taken. |
| `DomainNames.FromLabels` | protocol/DomainName.cpp:128-156 | Succeeds exactly for labels of 1 to 63 octets and at most 255 in all; otherwise reports the first fault and its label. |
| `DomainNames.FaultExact` | protocol/DomainName.cpp:133-144 | The first fault is absent exactly for valid labels. |
| `DomainNames.BuildKey` | protocol/DomainName.cpp:146-153 | The canonical key is the lower-cased wire form. |
| `DomainNames.KeysIdentify` | protocol/DomainName.cpp:128-156 | Canonical keys are equal exactly when the labels are equal ignoring ASCII case. |
| `DomainNames.CanonicalSuffixKey` | protocol/DomainName.cpp:173-182 | The suffix key at k is the canonical key of the labels from k on. |
| `DomainNames.CanonicalLabel` | protocol/DomainName.cpp:184-193 | The lower-cased label, or nothing past the end. |
| `DomainNames.IsSubdomainOf` | protocol/DomainName.cpp:210-222 | Decides whether the last labels equal the parent's, ignoring case. |
| `DomainNames.LabelsEqual` | protocol/DomainName.cpp:54-65 | Equality ignoring ASCII case. |
| `DomainNames.SuffixKeyFinds` | protocol/DomainName.cpp:173-222 | A name is under a parent exactly when one of its suffix keys is the parent's key. |
| `DomainNames.FromText` | protocol/DomainName.cpp:69-126 | The scanner of the presentation form, with its escapes and errors; every result is a valid name. |
| `DomainNames.ParsesExactly` | protocol/DomainName.cpp:69-126 | A text other than the root's parses to labels exactly when it spells them by the grammar of presentation texts (plain octets, escaped octets, three digits up to 255, single dots between labels, an optional last dot) and they are within the limits. |
| `DomainNames.ScanComplete` | protocol/DomainName.cpp:77-125 | The scanner accepts every spelling. |
| `DomainNames.ScanSound` | protocol/DomainName.cpp:77-125 | Whatever the scanner accepts is a spelling. |
| `DomainNames.ToString` | protocol/DomainName.cpp:158-171 | The presentation form with escapes. |
| `DomainNames.WriteLabel` | protocol/DomainName.cpp:25-52 | One label with its escapes. |
| `DomainNames.ParsedIsValid` | protocol/DomainName.cpp:69-126 | What parses is a valid name. |
| `DomainNames.TextRoundTrip` | protocol/DomainName.cpp:69-171 | Parsing the printed form, with or without a dot at its end, yields the name itself, for every valid name and octet value. |
| `RadixTree.UnderIsPrefix` | RadixTree.cpp:35-52 | Being under a parent is having its reversed canonical labels as a prefix. |
| `RadixTree.Tree.Search` | RadixTree.cpp:35-52 | Finds exactly the paths covered by a rule, the root rule only for the root. |
| `RadixTree.Tree.Insert` | RadixTree.cpp:10-27 | Adds exactly one rule path, reports whether it is new, and keeps the shape of the trie. |
| `DomainBlocklist.Blocklist.Matches` | DomainBlocklist.cpp:110-122 | True exactly when the query is a subdomain of some rule. |
| `DomainBlocklist.Build` | DomainBlocklist.cpp:42-108 | A built list blocks exactly the subdomains of the given rules, whatever the hash and the number of doublings; each error is the fault of the named rule or a requested stop, or the next filter size is out of range after every smaller filter of the doubling sequence was refused by a walk of 500 displacements over full buckets, below its load limit; up to eight names fit the first filter; the overflow error cannot occur. |
| `DomainBlocklist.ParseRules` | DomainBlocklist.cpp:47-68 | Valid rules, each key once, in the order in which the rules first mention them; otherwise the first bad rule. |
| `DomainBlocklist.RuleAcceptedExactly` | DomainBlocklist.cpp:57-63 | A rule is accepted exactly when it is a name with labels whose octets are neither asterisk nor question mark; each fault exactly under its condition. |
| `DomainBlocklist.FitFilter` | DomainBlocklist.cpp:70-106 | The first filter of the doubling sizes that takes all keys; in every smaller one both homes of some key were full and the displacements found no room. |
| `DomainBlocklist.LoadSuffices` | DomainBlocklist.cpp:25-28 | No filter of the doubling sequence can reach its load limit with the names it is made for. |
| `DomainBlocklist.FewNamesFitAtOnce` | DomainBlocklist.cpp:70-106 | Up to eight names always fit the first filter. |
| `DomainBlocklist.RefusedHasNine` | DomainBlocklist.cpp:78-88 | A refusal needs nine names at least. |
| `DomainBlocklist.FillFilter` | DomainBlocklist.cpp:76-88 | All keys are inserted, or a stop was requested, or a key met the load limit, or both homes of a key were full and the displacements found no room. |
| `DomainBlocklist.FillTree` | DomainBlocklist.cpp:90-97 | The trie holds exactly the rule paths. |
| `DomainBlocklist.AnySuffixIn` | DomainBlocklist.cpp:110-120 | A negative prefilter answer proves that no suffix was inserted. |
| `DomainBlocklist.NoSuffixNoMatch` | DomainBlocklist.cpp:110-122 | If no suffix key is a rule key the query is under no rule. |
| `DomainBlocklist.TreeDecides` | DomainBlocklist.cpp:110-122 | The trie answers subdomain of some rule. |
| `DomainBlocklist.SameKeysSameBlocked` | DomainBlocklist.cpp:65-67 | Dropping rules with equal keys changes no verdict. |
| `Wire.WireReader.ReadWord` | protocol/Wire.h:32-40 | Reads two octets big-endian exactly when they are there; a failed read consumes nothing. |
| `Wire.WireReader.ReadDouble` | protocol/Wire.h:42-52 | The same for four octets. |
| `Wire.WireReader.ReadBytes` | protocol/Wire.h:54-62 | The same for an octet string. |
| `Wire.WireWriter.Append` | protocol/Wire.h:86-130 | A write happens entirely within the maximum or not at all. |
| `DnsMessages.FlagsRoundTrip` | protocol/DnsParser.cpp:301-310 | Decoding the flag word gives back every header field. |
| `DnsMessages.WordRoundTrip` | protocol/DnsParser.cpp:301-310 | Every flag word is the one its decoded header encodes. |
| `DnsMessages.BitOfMask` | protocol/DnsParser.cpp:301-310 | Masking with one bit tests that bit. |
| `DnsParser.DecodesExactly` | protocol/DnsParser.cpp:25-117 | Decoding succeeds with an expansion exactly when the packet spells it there: distinct in-range pointers in order, within the pointer limit, labels of 1 to 63 octets, at most 255 in all, stored octets after the start and before the end. |
| `DnsParser.ExpandSound` | protocol/DnsParser.cpp:37-96 | Every successful run of the loop spells what it returns. |
| `DnsParser.ExpandComplete` | protocol/DnsParser.cpp:37-96 | Every spelled name within the limits is decoded. |
| `DnsParser.NameAt` | protocol/DnsParser.cpp:25-117 | A decoded name is valid and its stored octets lie strictly after the start and within the bound. |
| `DnsParser.ExpandLoop` | protocol/DnsParser.cpp:37-96 | The loop terminates on every packet under (pointers left, octets left) and computes the expansion or the first fault with its offset. |
| `DnsParser.DecodeName` | protocol/DnsParser.cpp:25-117 | The name of the expansion; the failure branch of building it is dead. |
| `DnsParser.Classify` | protocol/DnsParser.cpp:44-82 | The two top bits of a length octet decide pointer, label or invalid. |
| `DnsParser.ParseQuestion` | protocol/DnsParser.cpp:119-133 | One question, with the offset of the first missing field on failure. |
| `DnsParser.CountStrings` | protocol/DnsParser.cpp:163-188 | Counts the strings that fill the data exactly. |
| `DnsParser.CheckRdata` | protocol/DnsParser.cpp:190-252 | The loop-free checks and string counts compute the fault of the data, with its offset; when there is none is stated by MessageGrammar.RdataExactly. |
| `DnsParser.ParseResourceRecord` | protocol/DnsParser.cpp:135-256 | One record with its data checked by type. |
| `DnsParser.ParsedRecordValid` | protocol/DnsParser.cpp:135-256 | A parsed record has a valid name, its data is in the packet where it says, and the data has the layout of its type. |
| `DnsParser.RdataFills` | protocol/DnsParser.cpp:190-252 | Accepted data fills its length exactly as its type demands: names end at the end, or 20 octets before it for SOA, strings fill it, addresses have their size. |
| `DnsParser.ParseQuestions` | protocol/DnsParser.cpp:258-316 | A section is the sequence of its items. |
| `DnsParser.ParseRecords` | protocol/DnsParser.cpp:258-327 | The same for records. |
| `DnsParser.SectionReads` | protocol/DnsParser.cpp:258-270 | Items laid out one after another are read as a section. |
| `DnsParser.SectionLaid` | protocol/DnsParser.cpp:258-270 | A section that is read consists of items laid out one after another. |
| `DnsParser.ParsedMessageSound` | protocol/DnsParser.cpp:274-334 | In a parsed message every part is valid, record data fills its length as its type demands, the section lengths are the announced counts and within the limits, and the image is the packet. |
| `DnsParser.ParseMessage` | protocol/DnsParser.cpp:274-334 | The whole parse, every error with its offset; what parses, and to what, is stated by MessageGrammar.MessageExactly. |
| `MessageGrammar.MessageExactly` | protocol/DnsParser.cpp:274-334 | A packet parses to a message exactly when it is that message by a grammar that names no parser: header words, counts within the limits, four sections one after another from octet 12, to the end of the packet unless trailing data is allowed. |
| `MessageGrammar.RecordExactly` | protocol/DnsParser.cpp:135-256 | A record is parsed exactly when it is stored: name, ten octets of fields, data of the announced length in the form of its type. |
| `MessageGrammar.QuestionExactly` | protocol/DnsParser.cpp:119-133 | A question is parsed exactly when its name, type and class are stored. |
| `MessageGrammar.RdataExactly` | protocol/DnsParser.cpp:190-252 | For every type the data passes exactly when it is stored as the type demands: an address of its size; one name, two names, two octets and a name, two names and twenty octets, each decodable within the data; two strings, or at least one, that fill it. |
| `MessageGrammar.NameExactly` | protocol/DnsParser.cpp:25-117 | A name is decoded exactly when it is spelled within the limits, to its labels and its stored end. |
| `MessageGrammar.StringsExactly` | protocol/DnsParser.cpp:163-188 | The count of strings is the number of length-prefixed pieces that fill the data. |
| `MessageGrammar.HeaderExactly` | protocol/DnsParser.cpp:279-310 | Header and counts are read exactly as the six words encode them. |
| `MessageGrammar.PointerRefusedExactly` | protocol/DnsParser.cpp:53-69 | Each fault of a compression pointer exactly under its condition, in the order of the tests. |
| `DnsParser.ReadHeader` | protocol/DnsParser.cpp:279-289 | Six words, or how much was consumed. |
| `DnsWriter.EncodeFlags` | protocol/DnsWriter.cpp:18-37 | Or-ing the fields yields their sum over disjoint bits; out-of-range fields are errors in order. |
| `DnsWriter.WriteName` | protocol/DnsWriter.cpp:39-50 | The whole name is written exactly when it fits. |
| `DnsWriter.WriteQuestionMessage` | protocol/DnsWriter.cpp:52-75 | The complete message exactly when it fits, never a part of it; errors in order. |
| `DnsWriter.WriteAddressMessage` | protocol/DnsWriter.cpp:77-123 | The same for address answers that point to the question. |
| `DnsWriter.SerializeQuery` | protocol/DnsWriter.cpp:127-138 | A query with its header normalised. |
| `DnsWriter.QueryWrittenExactly` | protocol/DnsWriter.cpp:127-138 | A query is written exactly when it is one, its opcode fits, there are at most 65535 questions and header and questions fit the maximum. |
| `DnsWriter.RewriteTransactionId` | protocol/DnsWriter.cpp:140-148 | In place: the first two octets become the id, nothing else changes. |
| `DnsWriter.MakeErrorResponse` | protocol/DnsWriter.cpp:150-171 | Echoes the questions, or drops all of them when they do not fit. |
| `DnsWriter.ErrorWrittenExactly` | protocol/DnsWriter.cpp:150-171 | An error response is written exactly when the request is a query and a header can be written. |
| `DnsWriter.MakeHeaderOnlyErrorResponse` | protocol/DnsWriter.cpp:173-203 | Keeps what the prefix offers and refuses response prefixes. |
| `DnsWriter.MakeAddressResponse` | protocol/DnsWriter.cpp:210-230 | An address response to a single question. |
| `CachePolicy.CacheableAddressSet` | CachePolicy.cpp:10-50 | Admits a response exactly when every answer is a live direct address record; then all addresses in order with the least time to live, which is positive. |
| `CachePolicy.LeastTtl` | CachePolicy.cpp:19-47 | The least time to live is a lower bound that some answer attains. |
| `CachePolicy.MakeCacheHitResponse` | WorkerLoop.cpp:34-52 | A response from cached addresses, refused when a family does not match the question. |
| `MessageRoundTrip.QueryRoundTrip` | protocol/DnsWriter.cpp:127-138 | A serialised query parses exactly within the receiver's size and question limits; then id, opcode, RD, Z, AD and CD are the caller's, QR, AA, TC, RA and the code are clear, and the questions are the same. |
| `MessageRoundTrip.QuestionMessageReadBack` | protocol/DnsParser.cpp:274-334 | The same for every question message, with the exact error otherwise, under any limits. |
| `MessageRoundTrip.AddressMessageReadBack` | protocol/DnsWriter.cpp:77-123 | Parsing an address message resolves every pointer to the question's name and gives back the addresses in order. |
| `MessageRoundTrip.AddressResponseRoundTrip` | CachePolicy.cpp:10-50 | An address response parses by the default limits to the request's id, opcode, RD and CD with the other flags as given, and passed to the cache policy yields the same ordered addresses and time to live, unless that is zero. |
| `MessageRoundTrip.AddressWrittenExactly` | protocol/DnsWriter.cpp:77-123 | An address response is written exactly for one address question and addresses of its size, when header, question and all records fit. |
| `MessageRoundTrip.HitWrittenExactly` | WorkerLoop.cpp:34-52 | A cached set is answered exactly when its addresses have the family and size asked for and everything fits. |
| `MessageRoundTrip.HitRoundTrip` | WorkerLoop.cpp:34-52 | A cache hit turned into a response and parsed again yields the hit. |
| `MessageRoundTrip.DecodeEncoded` | protocol/DnsWriter.cpp:39-50 | A written name decodes to itself anywhere in a packet. |
| `MessageRoundTrip.DecodePointer` | protocol/DnsWriter.cpp:114-120 | A pointer to the first question decodes to its name. |
| `MessageRoundTrip.AcceptedByDefault` | protocol/DnsParser.cpp:291-299 | No address message that fits 65535 octets exceeds the default record limits. |
| `Datagrams.EvaluateDatagram` | WorkerLoop.cpp:68-105 | For all octets: never an internal error, no reply to a set QR bit, every reply a well-formed error response of at most 512 octets with QR set, the sender's id and echoed header fields, all of its questions or none, and FORMERR or NOTIMP according to what is wrong; accepted exactly the single IN A or AAAA queries, malformed exactly the unparsable ones. |
| `Datagrams.RefusalCodeSound` | protocol/DnsQuery.cpp:31-48 | The code of a refusal is FORMERR exactly for plain queries with bad flags, question count or answer sections. |
| `Datagrams.PrefixAgrees` | protocol/DnsWriter.cpp:181-200 | An error header built from the first four octets is the one built from the parsed header. |
| `Datagrams.ValidateQuery` | protocol/DnsQuery.cpp:6-29 | Ok exactly for an address query; not-a-query exactly for responses. |
| `Datagrams.ErrorResponseSafe` | protocol/DnsWriter.cpp:150-171 | Every refused query has an error response within the budget that echoes id, opcode, RD and CD, and the questions exactly when they fit. |
| `Datagrams.FormatErrorSafe` | protocol/DnsWriter.cpp:173-208 | A header-only error exists exactly for prefixes with an id and no QR bit. |
| `BinaryHeap.SiftUpStep` | runtime/TimerQueue.cpp:234-244 | A swap with the parent keeps everything ordered but the key that moves up. |
| `BinaryHeap.SiftDownStep` | runtime/TimerQueue.cpp:246-264 | A swap with the earliest child keeps everything ordered but the key that moves down. |
| `BinaryHeap.ReplaceByLast` | runtime/TimerQueue.cpp:266-285 | After removal from the middle the last key is out of place in one direction only. |
| `BinaryHeap.RootIsEarliest` | runtime/TimerQueue.cpp:118-121 | The root is the earliest key. |
| `BinaryHeap.PushHeap` | upstream/UpstreamChannel.cpp:514-515 | Pushing keeps the heap and adds one key. |
| `BinaryHeap.PopHeap` | upstream/UpstreamChannel.cpp:555-557 | Popping keeps the heap and removes the earliest key. |
| `TimerQueue.TimerQueue.Arm` | runtime/TimerQueue.cpp:68-92 | Queues a free registration under the next sequence number; every refusal in order and without effect. |
| `TimerQueue.TimerQueue.Disarm` | runtime/TimerQueue.cpp:94-110 | Removes exactly the registration, from wherever it is; the defensive branch is dead. |
| `TimerQueue.TimerQueue.Abandon` | runtime/TimerQueue.cpp:175-202 | Afterwards the queue does not refer to the registration. |
| `TimerQueue.TimerQueue.Expire` | runtime/TimerQueue.cpp:112-123 | Dispatches exactly the earliest due registrations in (deadline, sequence) order up to the budget; each is detached first; reports whether a due one is left. |
| `TimerQueue.TimerQueue.CancelAll` | runtime/TimerQueue.cpp:125-134 | Dispatches everything in order. |
| `TimerQueue.TimerQueue.CompleteFront` | runtime/TimerQueue.cpp:204-218 | The earliest registration is detached before its callback, refusals are counted. |
| `TimerQueue.TimerQueue.SwapNodes` | runtime/TimerQueue.cpp:227-232 | Both registrations point at their new places. |
| `TimerQueue.TimerQueue.SiftUp` | runtime/TimerQueue.cpp:234-244 | Restores the order; population and back-pointers are kept. |
| `TimerQueue.TimerQueue.SiftDown` | runtime/TimerQueue.cpp:246-264 | The same downwards. |
| `TimerQueue.TimerQueue.RemoveAt` | runtime/TimerQueue.cpp:266-285 | Detaches one registration and keeps the rest a valid indexed heap. |
| `TimerQueue.TimerQueue.WaitTimeout` | runtime/TimerQueue.cpp:136-166 | The least rounded-up wait in milliseconds over all registrations, cut at the largest int, with no subtraction leaving 64 bits. |
| `TimerQueue.RoundedWaitExactly` | runtime/TimerQueue.cpp:136-166 | The wait is the least number of milliseconds that reaches the deadline, cut at the largest int. |
| `Scheduler.Scheduler.Schedule` | runtime/Scheduler.cpp:90-112 | A task is queued at the end at most once; every refusal leaves the queue alone. |
| `Scheduler.Scheduler.PopReady` | runtime/Scheduler.cpp:126-134 | The longest waiting task leaves the queue. |
| `Scheduler.Scheduler.RunReady` | runtime/Scheduler.cpp:114-161 | Exactly the tasks of the dispatch run, first in, first out, and exactly what it leaves is queued: what a task wakes, can run and is not queued goes to the end, in order. |
| `Scheduler.DispatchConserves` | runtime/Scheduler.cpp:114-161 | In a dispatch the old queue followed by the arrivals is what runs followed by what is still queued; every arrival can run and was woken by a task that ran; at most the budget runs, and less only when the queue is empty. |
| `Scheduler.WakesServed` | runtime/Scheduler.cpp:114-161 | A task woken while another runs runs after it or is still queued. |
| `Scheduler.WokenExactly` | runtime/Scheduler.cpp:90-112 | Waking appends exactly the woken tasks that can run and are not queued, each once. |
| `Scheduler.Scheduler.ClearReady` | runtime/Scheduler.cpp:294-305 | The queue is empty and every task may be queued again. |
| `Scheduler.Scheduler.LinkRoot` | runtime/Scheduler.cpp:253-262 | A new root at the front of the doubly linked list. |
| `Scheduler.Scheduler.UnlinkRoot` | runtime/Scheduler.cpp:264-278 | A root leaves from any place, the others keep their order. |
| `TransactionIds.IdPool.InitializeIdPool` | upstream/UpstreamChannel.cpp:518-549 | All ids below the capacity are free, each listed once, in random or rotated order. |
| `TransactionIds.IdPool.AllocateId` | upstream/UpstreamChannel.cpp:480-496 | None exactly when every id holds a slot or ended less than the guard ago; an id that was used before is given out only when ended + guard <= now, or at the last tick. |
| `TransactionIds.IdPool.NotGivenExactly` | upstream/UpstreamChannel.cpp:480-496 | An id is not to be had exactly when it holds a slot, or less than the guard has passed since its last query ended and the clock is not at its end. |
| `TransactionIds.GuardPasses` | upstream/UpstreamChannel.cpp:616-625 | The quarantine is over exactly when the guard has passed since the end, or at the last tick. |
| `TransactionIds.IdPool.ReclaimIds` | upstream/UpstreamChannel.cpp:551-566 | Exactly the ids whose guard has passed become free. |
| `TransactionIds.IdPool.InsertFreeId` | upstream/UpstreamChannel.cpp:568-576 | A freed id is listed once, at the end or at a random place. |
| `TransactionIds.IdPool.ReleaseId` | upstream/UpstreamChannel.cpp:498-516 | A sent id is quarantined until min(last tick, now + guard), an unsent one is free at once. |
| `TransactionIds.IdPool.GuardedReuseTime` | upstream/UpstreamChannel.cpp:616-625 | min(last tick, now + guard), computed without overflow. |
| `TransactionIds.IdPool.ValidateIdPool` | upstream/UpstreamChannel.cpp:578-614 | The audit succeeds exactly when no query is pending. |
| `TransactionIds.AuditList` | upstream/UpstreamChannel.cpp:587-600 | The audit of one list decides soundness of that list. |
| `TransactionIds.AuditStates` | upstream/UpstreamChannel.cpp:602-613 | The audit of the states decides them all. |
| `TransactionIds.IdleAudit` | upstream/UpstreamChannel.cpp:578-614 | In an idle pool every question of the audit has the expected answer. |
| `TransactionIds.NoneOutside` | upstream/UpstreamChannel.cpp:583-585 | A pending id leaves the two lists shorter than the capacity. |
| `TransactionIds.NothingPending` | upstream/UpstreamChannel.cpp:460-473 | When no slot is held the two lists hold every id. |
| `TransactionIds.HoldingCounted` | upstream/UpstreamChannel.cpp:578-614 | The free ids, the quarantined ids and the ids that hold a slot make up the capacity. |
| `UpstreamChannel.UpstreamChannel.QueryConservation` | upstream/UpstreamChannel.cpp:201-375 | At all times sent = responses + timeouts + cancellations + socket errors + queries in flight, each sent query has ended at most once, no check has failed, and exactly a query in flight holds one slot, one timer in the heap and one task that waits outside the ready queue. |
| `UpstreamChannel.UpstreamChannel.Begin` | upstream/UpstreamChannel.cpp:201-279 | The answer exactly, refusal by refusal: closed, wrong thread, wrong scheduler, no id exactly when every id is in use or guarded, bad query exactly when it cannot be written, timers closed, not sent; sent exactly otherwise, under a free and unguarded id, with its slot taken, its timer in the heap under its deadline and its task waiting. A query that was not sent leaves slots, timers and tasks as before. |
| `UpstreamChannel.UpstreamChannel.SentExactly` | upstream/UpstreamChannel.cpp:201-279 | A query is sent exactly when the channel runs and accepts on this thread, the task is its own, some id holds no slot and has rested for the guard, the query is one and fits 512 octets, timers are accepted and the socket takes it. |
| `UpstreamChannel.UpstreamChannel.Launch` | upstream/UpstreamChannel.cpp:39-86 | The task is suspended exactly when the query was sent; otherwise the query is completed with the reason or has failed, and a used query fails. |
| `UpstreamChannel.UpstreamChannel.Await` | upstream/UpstreamChannel.h:95-115 | A task without scheduler or with a stop request sends nothing; otherwise it is suspended exactly when the query was sent. |
| `UpstreamChannel.UpstreamChannel.Resume` | upstream/UpstreamChannel.cpp:94-103 | A task gets the reply of a completed query unless it was cancelled; a query in flight has none. |
| `UpstreamChannel.UpstreamChannel.QueryUntil` | upstream/UpstreamChannel.cpp:196-199 | A new query, not sent, with a timer of its own that is in no heap. |
| `UpstreamChannel.UpstreamChannel.Ask` | upstream/UpstreamChannel.cpp:185-194 | The deadline is now plus the timeout, cut at the end of the clock. |
| `UpstreamChannel.Rollback` | upstream/UpstreamChannel.cpp:281-294 | Slot, id, timer and account are as before the attempt. |
| `UpstreamChannel.Transmit` | upstream/UpstreamChannel.cpp:239-278 | Only a query whose timer was armed and that was sent keeps its slot. |
| `UpstreamChannel.UpstreamChannel.Finish` | upstream/UpstreamChannel.cpp:321-370 | Ends exactly a query in flight: slot freed, id quarantined from now, timer out of the heap, one counter raised, its task at the end of the ready queue; neither disarming nor scheduling fails. Any other query is untouched. |
| `UpstreamChannel.Conclude` | upstream/UpstreamChannel.cpp:321-370 | The same over pool, heap and ready queue together: the counter of failed checks is raised for a failed disarm or schedule, and stays zero. |
| `UpstreamChannel.UpstreamChannel.FireFront` | upstream/UpstreamChannel.cpp:372-375 | The earliest timer leaves the heap and its query ends as a timeout or cancelled; the callback accepts, so the heap counts no failure. |
| `UpstreamChannel.UpstreamChannel.ExpireDue` | runtime/TimerQueue.cpp:112-123 | Expiry of a channel's timers: exactly the due queries end as timeouts, in the order of deadline and arming, up to the budget, and their tasks are scheduled in that order; fewer only when no query in flight is due. |
| `UpstreamChannel.TimedOutExactly` | upstream/UpstreamChannel.cpp:372-375 | Of every query: it ends as a timeout exactly when its timer fired, and is unchanged otherwise. |
| `UpstreamChannel.UpstreamChannel.RunTasks` | runtime/Scheduler.cpp:114-161 | Running tasks that wait for no query keeps the channel in order and every query as it is. |
| `UpstreamChannel.UpstreamChannel.Abandon` | upstream/UpstreamChannel.cpp:296-319 | Ends a query in flight without scheduling its task: slot freed, id quarantined, timer out of the heap. On another thread the timer stays armed and the failure is counted: the channel stays in order exactly when the call is on its thread or the query was not in flight. |
| `UpstreamChannel.UpstreamChannel.HandleDatagram` | upstream/UpstreamChannel.cpp:377-420 | A datagram ends a query exactly when it parses as a response to the question under its id; the client gets the same octets under its own id; any other datagram is counted and changes no query. |
| `UpstreamChannel.Recognise` | upstream/UpstreamChannel.cpp:381-412 | Finds the answered query, if any; the rewriting of the id does not fail. |
| `UpstreamChannel.ExpectedExactly` | upstream/UpstreamChannel.cpp:381-412 | A datagram is matched exactly when all of it arrived, its first octets name a slot in use, and it parses to a response with this id, the opcode asked with, a clear Z bit and the one question asked. |
| `UpstreamChannel.UpstreamChannel.FailAll` | upstream/UpstreamChannel.cpp:460-473 | Every query in flight ends with the outcome, in the order of the slots, and the ready queue grows by exactly their tasks in that order; none is left. |
| `UpstreamChannel.FailedExactly` | upstream/UpstreamChannel.cpp:460-473 | Of every query: it ends with the outcome exactly when it was in flight, and is unchanged otherwise. |
| `UpstreamChannel.UpstreamChannel.Stop` | upstream/UpstreamChannel.cpp:164-183 | Succeeds exactly when nothing is pending, since the audit never fails. |
| `UpstreamChannel.UpstreamChannel.Shutdown` | WorkerLoop.cpp:487-501 | Close, cancel, stop on the channel's thread is clean: every query ends as cancelled, its task is scheduled, and the channel stops. |
| `UpstreamChannel.UpstreamChannel.Restart` | upstream/UpstreamChannel.cpp:121-149 | A stopped channel starts again exactly with its configuration on the thread of its scheduler and timers, with fresh counters and the quarantine kept. |
| `UpstreamChannel.Exchange` | upstream/UpstreamChannel.cpp:185-420 | From an opened channel to the reply: the query is sent exactly when it can be written, a datagram is matched exactly when it parses as a response to it under its id, and a matched one reaches the task that asked under the client's id. |
| `ReplyMatching.AddressResponseAnswers` | upstream/UpstreamChannel.cpp:377-411 | What was sent parses to the question asked, and every address response to it that fits a datagram is matched. |
| `ReplyMatching.Resolve` | upstream/UpstreamChannel.cpp:185-420 | Under a resolver that answers so, every query that can be written is served. |
| `UpstreamChannel.EndKeepsCount` | upstream/UpstreamChannel.cpp:321-363 | Ending a query conserves sent = responses + timeouts + cancellations + socket errors + pending. |
| `UpstreamChannel.EndKeepsSlots` | upstream/UpstreamChannel.cpp:321-331 | Ending a query keeps slots and queries in correspondence. |
| `UpstreamChannel.EndKeepsTimers` | upstream/UpstreamChannel.cpp:329-330 | Ending a query keeps timers in the heap and queries in correspondence. |
| `UpstreamChannel.StartKeepsSlots` | upstream/UpstreamChannel.cpp:239-244 | Beginning a query keeps slots and queries in correspondence. |
| `UpstreamChannel.InFlightCounted` | upstream/UpstreamChannel.cpp:239-331 | As many queries are in flight as slots are held. |
| `DnsCache.CacheShard.Get` | DNS_Cache.cpp:48-66 | A hit is the last put for the key, strictly before expiry, with the remaining seconds rounded up into 1 to its time to live; a miss drops an expired key. |
| `DnsCache.CacheShard.Put` | DNS_Cache.cpp:68-115 | The key is cached with the new addresses; at most one other key is lost, only when full, and it is the one in the slot the hand finds. |
| `DnsCache.CacheShard.Sweep` | DNS_Cache.cpp:102-114 | The hand stops at the first empty, expired or unreferenced slot cyclically, else at its start after one turn. |
| `DnsCache.CacheShard.MoveHand` | DNS_Cache.cpp:102-114 | The slots passed lose their second chance and no others; the sweep terminates. |
| `DnsCache.CacheShard.ReplaceSlot` | DNS_Cache.cpp:127-135 | The slot's old key leaves the index and the new one enters. |
| `DnsCache.VictimUnique` | DNS_Cache.cpp:102-114 | There is one victim. |
| `DnsCache.SizeBounded` | DNS_Cache.cpp:40-46 | The index never holds more keys than there are slots. |
| `DnsCache.SplitCapacity` | DNS_Cache.cpp:137-148 | The shard capacities sum to the total and differ by at most one; no shards is an error. |
| `WorkerRecovery.DelayDoubles` | WorkerSupervisor.cpp:27-30 | Capped doubling walks through min(initial * 2^k, maximum). |
| `WorkerRecovery.DeadlineAfter` | WorkerSupervisor.cpp:21-25 | Now plus the delay, or the end of the clock when that is less than a millisecond further. |
| `WorkerRecovery.BudgetPerEpisode` | WorkerSupervisor.cpp:747-836 | In every run, between two resets at most the configured number of replacements is created, and none when the policy is to fail the service. |
| `RecoveryBudget.RunVerdict` | WorkerSupervisor.cpp:787-836 | In every run, told from the log and the configuration: a failed worker is replaced exactly when the policy is to restart, the data plane is released, instance ids are left, it is joined without a stop, and fewer attempts than configured are charged since the last reset; the budget is called exhausted exactly when only that fails, with exactly the configured number charged. The delay is min(initial * 2^charges, maximum) from the time of the failure. |
| `RecoveryBudget.RunReplacement` | WorkerSupervisor.cpp:747-774 | In every run a replacement is attempted exactly when its delay is over and nobody stops; it is charged, and the verdict on its failure counts this charge. |
| `RecoveryBudget.RunCharges` | WorkerSupervisor.cpp:795-804 | In every run a failure drops all charges exactly when the worker completed at or after its stability deadline. |
| `RecoveryBudget.StabilityRewarded` | WorkerSupervisor.cpp:735-746 | In every run a look at a worker still running at its stability deadline clears the charges; an earlier one changes nothing. |
| `RecoveryBudget.VerdictExactly` | WorkerSupervisor.cpp:787-836 | The verdict on one failure, stop and join included. |
| `RecoveryBudget.LogIsTrue` | WorkerSupervisor.cpp:339-836 | In every run each event of the log carries the instance and the time of the step that logged it. |
| `RecoveryBudget.HealthyWorkerRuns` | WorkerSupervisor.cpp:679-727 | A new instance that reports ready and activated, in any order, and does not complete gets to run. |
| `RecoveryBudget.FailureNoticed` | WorkerSupervisor.cpp:787-836 | A live instance that completes, or reports that it is not ready, can be handled as failed. |
| `WorkerRecovery.ResetsEarned` | WorkerSupervisor.cpp:728-804 | In every run the budget is reset only for the instance that was created last and has not left, after it began to run and ran until its stability deadline, judged by when it completed. |
| `WorkerRecovery.DelaysPerEpisode` | WorkerSupervisor.cpp:825-831 | In every run the k-th delay after a reset is min(initial * 2^k, maximum), and there are at most as many as attempts. |
| `WorkerRecovery.InstancesDoNotOverlap` | WorkerSupervisor.cpp:339-415 | In every run, between two creations the first instance was joined and its registration is gone. |
| `WorkerRecovery.ReplacementsWait` | WorkerSupervisor.cpp:747-774 | In every run no replacement is created before the delay that precedes it is over. |
| `WorkerRecovery.HistoryGrows` | WorkerSupervisor.cpp:679-836 | What was logged of a worker stays in every later state of the run. |
| `WorkerRecovery.InvAlways` | WorkerSupervisor.cpp:339-836 | The record agrees with its history in every reachable state. |
| `WorkerRecovery.StepKeepsInv` | WorkerSupervisor.cpp:679-1019 | Every critical section (reports, acceptance, promotion, stability, failure, launch, replacement) keeps the agreement of record and history. |
| `WorkerRecovery.WorkerSupervisor.HandleFailure` | WorkerSupervisor.cpp:787-836 | The verdict and the new record exactly: stop before, episode continued or opened, join, stop after, then backoff exactly when the policy allows it and an attempt is left. |
| `WorkerRecovery.WorkerSupervisor.OpenEpisode` | WorkerSupervisor.cpp:795-804 | The budget is reset exactly for a running worker that completed at or after its stability deadline. |
| `WorkerRecovery.WorkerSupervisor.CheckStability` | WorkerSupervisor.cpp:728-746 | The budget is reset exactly for a worker still running at its stability deadline. |
| `WorkerRecovery.WorkerSupervisor.CreateWorker` | WorkerSupervisor.cpp:339-415 | An attempt of an episode is charged first, also when the creation then fails; the next instance is logged with its time, and all reports of the last one are cleared. |
| `WorkerRecovery.WorkerSupervisor.TryReplace` | WorkerSupervisor.cpp:747-774 | Nothing happens before the delay is over; then a replacement starts, or its failure is handled with the attempt charged and the verdict returned. |
| `WorkerRecovery.WorkerSupervisor.JoinAndReset` | WorkerSupervisor.cpp:1203-1257 | Thread joined, instance dropped, registration gone, or nothing of it. |
| `WorkerRecovery.WorkerSupervisor.LaunchFirst` | WorkerSupervisor.cpp:339-415 | The first instance runs, or the supervisor is over. |

## Left out

- FilterPublication.FilterPublicationState.RefreshWorkerSnapshot: memory orders are not modelled; the steps interleave sequentially consistently.
- PublicationProtocol.PublicationBookkeeping: the byte counter is stated until its saturating addition has saturated once, as the program itself promises no more.
- ReportedUpdates.StepKeepsInv: taking a mutex and the work under it are one step, and the observation of the watermark by a waiting thread is the step that raises it.
- UpdateJournal.FilterUpdateController.SealAndCancel: shown as one call; its interleaving with other threads is in the journal's steps SealQueue and CancelOne.
- DomainBlocklist.Build: allocation limits of the filter appear as the error LengthError, which stands for the exception the program raises for such a size; nothing is said about when memory is short.
- CuckooFilter.Filter.Insert: the hash function itself (xxHash) is not modelled.
- DnsParser.DecodeName: the branch for labels over 63 octets is not written out, since the length octet's top bits already exclude it.
- TimerQueue.TimerQueue.Arm: sequence numbers are unbounded, so their wrap-around after 2^64 timers is not modelled.
- TimerQueue.TimerQueue.Expire: callbacks return a verdict and do not touch the queue while it dispatches; callbacks that end queries are in UpstreamChannel.ExpireDue.
- TimerQueue.TimerQueue.CancelAll: callbacks return a verdict and do not touch the queue while it dispatches.
- TimerQueue.TimerQueue.Abandon: termination of the process on the wrong thread and the search for a registration that is not where it says are not modelled; the latter is proved unreachable.
- Scheduler.Scheduler.RunReady: resuming a task is an input that says which tasks it wakes; destroying finished frames, nested dispatch, cancellation while dispatching and the stop source are not modelled.
- UpstreamChannel.UpstreamChannel.Begin: queries are referred to by numbers instead of addresses and are never deleted; that the timers are bound to the channel's scheduler is a condition of the first start, and not tested again.
- UpstreamChannel.UpstreamChannel.Finish: only the four outcomes it is called with are modelled, and error numbers are not.
- UpstreamChannel.UpstreamChannel.ExpireDue: the heap holds timers of this channel only.
- UpstreamChannel.UpstreamChannel.RunTasks: what a resumed task does to the channel is a call of its own.
- UpstreamChannel.UpstreamChannel.Shutdown: the closing of the scheduler and the timers around it is not part of it.
- UpstreamChannel.UpstreamChannel.Restart: the first start is the constructor; the discarding of old input succeeds or fails as an input says.
- UpstreamChannel.UpstreamChannel.HandleDatagram: exceptions of memory allocation are not modelled; the loop that reads the socket and calls it (UpstreamChannel.cpp:422-458) is left out.
- DnsCache.CacheShard.Put: expiry times are unbounded integers; overflow of the clock in about 150 years is not modelled.
- WorkerRecovery.WorkerSupervisor.CreateWorker: thread start, registration and construction succeed or fail as inputs say; test hooks and startup handshakes are not modelled.
- WorkerRecovery.WorkerSupervisor.HandleFailure: one record at a time; health reporting is not modelled.
- Sockets, epoll, signals and the worker's event loop: input and output only.
- Threads and start-up of the whole service (DNS.cpp): plumbing and error mapping.
- Convenience overloads that parse text before calling the modelled functions: they add nothing to prove.
