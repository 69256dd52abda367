# Verified models of the madsim service simulators

madsim is a deterministic simulator for distributed systems. Besides its network it simulates an
etcd server, a Kafka cluster and an S3 store, so that programs meet these services
without leaving the simulation. Programs rely on what the simulated services promise; this project
models the services and proves those promises.

Each simulated service keeps its state behind one lock, so one request is one step. Every service is
modelled twice: as functions on values, over which the properties are proved for every run, and as a
class with the source's fields, whose methods carry the source's loops and in-place updates and are
proved to compute those functions.

| files | what they model |
|---|---|
| `ByteStrings.dfy` | byte strings, their order, the key range of a prefix |
| `Escape.dfy` | the escaped text form of byte strings |
| `EtcdStore.dfy`, `EtcdService.dfy` | the etcd server, as functions and as a class |
| `EtcdReads.dfy`, `EtcdReplay.dfy`, `EtcdLeader.dfy`, `EtcdTxn.dfy` | its properties: reads, event replay, leader and announcements, transactions |
| `EtcdLeases.dfy`, `EtcdGuards.dfy`, `EtcdLifetime.dfy` | the lease index, exactly when it holds, and how long leases live |
| `EtcdAges.dfy`, `EtcdStamps.dfy`, `EtcdElection.dfy` | how records age, when create revisions stay in order, and election safety |
| `EtcdWatch.dfy`, `EtcdCandidates.dfy` | watchers, and the candidates that wait |
| `EtcdAnswers.dfy` | what requests answer and leave behind, and how the revision counts them |
| `KafkaBroker.dfy`, `KafkaFetch.dfy`, `KafkaConsumer.dfy`, `KafkaProducer.dfy`, `KafkaService.dfy` | broker, fetch, consumer and producer, as functions and as classes |
| `KafkaDelivery.dfy`, `KafkaLatest.dfy`, `KafkaAssignment.dfy`, `KafkaPipeline.dfy` | delivery over runs of broker and consumer, where it begins under the latest policy, which partitions are assigned, and the whole pipeline |
| `S3Store.dfy`, `S3Range.dfy`, `S3Multipart.dfy`, `S3Uploads.dfy`, `S3Service.dfy` | the S3 store, its range reads, its multipart uploads, how they begin and end, and its class |
| `Mailbox.dfy`, `Channel.dfy` | the endpoint mailbox and the ordered timed channel |

## How to read the model

- A panic of the server is an outcome (`Panic`, `Crashed`, `ProducePanic`, ...), not an excluded
  input. Class methods require that the outcome is not a panic.
- What the server draws at random is a parameter of the request: lease ids, upload ids, e-tags and
  the order in which a hash map or set is visited. `Legal` says which values can be drawn. The
  answer of a link test is a parameter as well. Library calls are given by their contract:
  `BTreeMap` iteration is `Ascending`, stable sorting is `SortByNumber`, and `partition_point` on
  an ordered log is `PointFrom`.
- Revisions, offsets and times to live are unbounded integers; 64-bit overflow is not modelled.
  Lease ids are 64-bit, because they are printed.

## Where a promise fails, and exactly when

- **Lease index.** Putting a key on the lease it already has removes it from the lease's key set,
  and a campaign over a key held by another lease leaves it in that lease's set.
  `EtcdLeases.StepIndex` shows that these are the only single requests that break the index, and
  `SameLeasePutPanicsLater` and `StealingCampaignPanicsLater` show that each makes a later request
  panic, from every state in which it can happen. For transactions of any nesting depth
  `EtcdGuards.TxnIndexIff` gives the exact condition, and `EtcdGuards.RunIndexed` the exact
  condition for whole runs. From any store, agreeing or not, `EtcdLeases.RevokeDoneIff` and
  `TickDoneIff` say exactly when revocation and expiry panic.
- **Election.** A leader should keep its office until its key is removed or re-created. A transaction
  sets the revision back to its start plus one, so a record can be dated above the store revision, and
  a leader dated so can be displaced by a new key (`EtcdElection.TwoPutTxnLosesLeader`).
  `EtcdElection.LeaderSafeIff` gives the exact condition: no run displaces a leader whose key survives
  if and only if it is `Safe`, that is, dated at most at the store revision, or by the next one while
  every smaller key under the name is one that no request can create. A candidate elected by a bid it
  has just written always is (`WrittenBidIsSafe`), and so is every leader while create revisions are
  distinct and bounded (`StampedIsSafe`). When they are is exact too: `EtcdStamps.TxnStampedIff` for a
  transaction of any nesting depth, `RunStampedIff` for whole runs.
- **Waiting candidates.** The server expects that the sender of a waiting candidate is never
  dropped, but the bus drops a watcher whose channel of four is full. `EtcdCandidates.LoopPanicsIff`
  says from the requests alone exactly when the candidate then fails.
- **Latest offset.** `Offset::End` is documented as the end of the partition, but a fetch starts at
  the last message it finds. With n messages at the assignment and L at the first poll that takes
  one, delivery begins with the first new message if and only if L = n + 1; an old message is given
  out again if and only if L = n; and new messages are skipped if L > n + 1
  (`KafkaLatest.LatestOverRuns`; `LatestFromLast` and `LatestSkips` show both failures).
- **Polling.** A message above a byte limit blocks its partition and every partition after it.
  `KafkaFetch.EmptyIffStuck` says exactly when a fetch comes back empty. A fault in the assignment, such as
  an unknown partition, goes unnoticed while messages before it fill a fetch; `FetchFailsIff` says exactly
  when a fetch fails.
- **Object ranges.** The source points to RFC 9110 for ranges, whose section 14.1.2 cuts a range back
  to the body; the server panics instead. `S3Range.RangeIsStandardIff` gives the exact condition. Some
  ranges that section 14.1.2 cannot satisfy are answered all the same, `bytes=-` with the whole body;
  `S3Range.UnsatisfiableAnsweredIff` says which, and with what.
- **Mailbox.** Both vectors lose elements by swapping, so neither the messages of a tag nor the
  receivers waiting for it keep their order (`Mailbox.TagOrderNotKept`, `TurnsNotKept`).
  `Mailbox.OrderKeptIff` says exactly when serving a message keeps the order of a tag's messages, and
  `TurnsKeptIff` exactly when a delivery serves the first receiver of its tag and keeps the order of
  the others.

## Model

| member | source | states |
|---|---|---|
| ByteStrings.RangeIsPrefix | madsim-etcd-client/src/service.rs:337-341 | the half-open range from a name to the name with its last byte incremented holds exactly the keys that start with the name |
| Escape.RoundTrip | madsim-etcd-client/src/bytes.rs:25-75 | parsing the printed form of any byte string gives it back |
| Escape.PrintInjective | madsim-etcd-client/src/bytes.rs:25-29 | different byte strings print differently |
| Escape.CanonicalSpelling | madsim-etcd-client/src/bytes.rs:25-75 | printing after a parse is printable ASCII, parses to the same bytes, and is shared exactly by the texts that mean the same |
| Escape.ParsesIffSpelled | madsim-etcd-client/src/bytes.rs:41-75 | the parser accepts exactly the texts of an independently stated grammar, with the bytes they spell |
| Escape.FromStr | madsim-etcd-client/src/bytes.rs:44-74 | the parsing loop computes the specified result, errors included |
| EtcdReads.PrefixGetExact | madsim-etcd-client/src/service.rs:321-341 | a prefix read lists exactly the records under the prefix, once each, in key order, and panics exactly on an empty prefix or a last byte of 255 |
| EtcdReads.GetTellsLastEvent | madsim-etcd-client/src/service.rs:274-360 | after any run a read of a key answers with the record of the key's last event, with nothing after a deletion, and as before if there was no event |
| EtcdReads.PutThenGet | madsim-etcd-client/src/service.rs:274-319 | a put is read back with the announced revision and its kept creation revision after any run that publishes no event of the key; it answers, if asked, with what a read would have shown before, and touches no other key |
| EtcdReads.DeleteThenGet | madsim-etcd-client/src/service.rs:343-360 | a delete reports whether the key was there and touches no other key, and the key stays unread through any run that publishes no event of it |
| EtcdReplay.RemovalReplay | madsim-etcd-client/src/service.rs:419-423 | removing the keys of a dying lease in any order publishes deletes that replay to the new map |
| EtcdReplay.StepReplays | madsim-etcd-client/src/service.rs:274-583 | the events of any request, replayed over the old map, give exactly the new map |
| EtcdReplay.RunReplays | madsim-etcd-client/src/service.rs:234-243 | the event stream of any run rebuilds the final map |
| EtcdLeader.RangeRecords | madsim-etcd-client/src/service.rs:337-341 | the range scan yields all records under the prefix and no others, in key order |
| EtcdLeader.MinByCreateSpec | madsim-etcd-client/src/service.rs:556-559 | the minimum search returns the first of the records with the least create revision |
| EtcdLeader.LeaderSpec | madsim-etcd-client/src/service.rs:553-561 | the leader is the oldest record under the name, the smaller key winning a tie; there is none exactly when no key is under the name |
| EtcdLeader.LeaderUnique | madsim-etcd-client/src/service.rs:553-561 | that description determines the answer |
| EtcdLeader.LeaderChangeIsAnnounced | madsim-etcd-client/src/service.rs:210-217 | a run that changes the leader record of a name has published an event under that name |
| EtcdLeases.PutIndex | madsim-etcd-client/src/service.rs:286-300 | from an agreeing index a put never panics, and keeps the index if and only if it does not repeat the key's own lease |
| EtcdLeases.CampaignIndex | madsim-etcd-client/src/service.rs:487-517 | exactly when a campaign panics, and that it keeps the index if and only if it takes no key from another lease |
| EtcdLeases.RevokeExact | madsim-etcd-client/src/service.rs:416-428 | a revoked lease takes exactly its own keys with it, whatever the visiting order |
| EtcdLeases.RevokeDoneIff | madsim-etcd-client/src/service.rs:416-428 | whether or not the index agrees, a revocation panics if and only if a key of the lease is not stored; otherwise just its keys go, in any order |
| EtcdLeases.TickLeases | madsim-etcd-client/src/service.rs:466-485 | whether or not the index agrees, a tick that finishes ages every lease by one second and drops the expired ones, and moves the revision by one exactly when some lease expired |
| EtcdLeases.TickExact | madsim-etcd-client/src/service.rs:466-485 | from an agreeing index a tick never panics, removes exactly the leases with one second left and exactly their keys, ages the others, and moves the revision by one exactly when some lease died |
| EtcdLeases.TickDoneIff | madsim-etcd-client/src/service.rs:466-485 | whether or not the index agrees, a tick panics if and only if an expiring lease holds a key that is not stored or shares one with another expiring lease; otherwise just their keys go |
| EtcdLeases.IndexedIsReady | madsim-etcd-client/src/service.rs:416-485 | while the index agrees, revoking and expiring never meet a missing key |
| EtcdLeases.StepIndex | madsim-etcd-client/src/service.rs:274-583 | for every request but transactions: exactly which inputs panic and exactly which break the lease index |
| EtcdLeases.SameLeasePutPanicsLater | madsim-etcd-client/src/service.rs:286-300 | after a put that repeats the key's lease, revoking the lease leaves the key behind and deleting the key panics |
| EtcdLeases.StealingCampaignPanicsLater | madsim-etcd-client/src/service.rs:500-517 | after a campaign that takes a key from another lease, revoking that lease and then the candidate's panics |
| EtcdGuards.TxnIndexIff | madsim-etcd-client/src/service.rs:362-396 | a transaction of any nesting depth panics if and only if the primitive operations it comes down to hold a put on an unknown lease or a prefix read without end; otherwise it keeps the lease index if and only if no key's last write among them repeats the lease the key then has |
| EtcdGuards.GuardIff | madsim-etcd-client/src/service.rs:274-583 | for every request, transactions included, the guard is exact: it holds if and only if the request finishes and keeps the index |
| EtcdGuards.RunIndexed | madsim-etcd-client/src/service.rs:274-583 | in every legal run, no expectation fails and each lease's key set equals the keys carrying its id throughout, if and only if every request respects the guard in the state it meets |
| EtcdGuards.ReachableIndexed | madsim-etcd-client/src/service.rs:274-583 | in particular for runs from the empty server |
| EtcdLifetime.LeaseLivesWhileRenewed | madsim-etcd-client/src/service.rs:398-485 | through any run that does not panic and neither revokes nor re-grants it, the lease named in the answer of a grant, the one asked for or drawn, is alive if and only if no stretch of max(ttl, 1) ticks passed without a keep-alive; exactly then a further keep-alive is answered with the granted time and not refused |
| EtcdLifetime.ClockAfter | madsim-etcd-client/src/service.rs:430-485 | a living lease's remaining time is its granted time minus the ticks since its last renewal |
| EtcdStamps.TxnStampedIff | madsim-etcd-client/src/service.rs:362-396 | a transaction of any nesting depth keeps create revisions distinct and bounded if and only if it leaves no key that it created after the revision had moved, which can be read off its operations and the values present beforehand |
| EtcdStamps.StepSteady | madsim-etcd-client/src/service.rs:274-583 | for every request: create revisions stay distinct and bounded if and only if it is tidy, that is, no transaction leaving such a key |
| EtcdStamps.RunStampedIff | madsim-etcd-client/src/service.rs:274-583 | throughout a run create revisions are distinct and bounded if and only if every request is tidy in the state it meets |
| EtcdAges.RunAges | madsim-etcd-client/src/service.rs:274-583 | over any run at all, from any store, keys are kept with their creation revision or created later than the start |
| EtcdStamps.SingleWritesAreTidy | madsim-etcd-client/src/service.rs:374-389 | runs whose transactions write at most once per branch are tidy, and in them no record is ever dated in the future |
| EtcdStamps.ReachableStamped | madsim-etcd-client/src/service.rs:302-312 | in particular every state a tidy run reaches from the empty server |
| EtcdElection.LeaderIsOldestSurvivor | madsim-etcd-client/src/service.rs:553-561 | after any run the leader of a name is the oldest candidate of the start that survived the run, if that one was not dated above the revision |
| EtcdElection.LeaderStays | madsim-etcd-client/src/service.rs:553-561 | through any run a safe leader stays leader, and safe, until its key is removed or re-created |
| EtcdElection.LeaderSafeIff | madsim-etcd-client/src/service.rs:302-561 | a leader keeps its office through every run that its key survives if and only if it is safe; otherwise a single put or campaign displaces it |
| EtcdElection.PutDisplacesIff | madsim-etcd-client/src/service.rs:302-312 | a put of a new key under the name leaves the leader in office if and only if the leader is dated at or below the revision, or by the next one under a smaller key |
| EtcdElection.StampedIsSafe | madsim-etcd-client/src/service.rs:553-561 | wherever create revisions are distinct and bounded, every leader is safe |
| EtcdElection.CampaignKeySpelled | madsim-etcd-client/src/service.rs:495-498 | a candidate's key is the name, a slash and sixteen lower-case hexadecimal digits of the lease id, modulo 2^64 |
| EtcdElection.CampaignKeyInjective | madsim-etcd-client/src/service.rs:495-498 | different leases campaign for a name under different keys |
| EtcdElection.RivalWaits | madsim-etcd-client/src/service.rs:519-534 | while a safe leader's key survives, a new campaign under another key is not elected |
| EtcdElection.WrittenBidIsSafe | madsim-etcd-client/src/service.rs:500-528 | a candidate elected by a bid it has just written is safe, in whatever state the server is |
| EtcdStamps.FlatTxnStampedIff | madsim-etcd-client/src/service.rs:374-389 | for a flat transaction the same, key by key: no lasting key is created after another write of the branch |
| EtcdElection.TwoPutTxnLosesLeader | madsim-etcd-client/src/service.rs:374-389 | after a transaction that creates two keys, a later put can displace a leader whose key survives |
| EtcdTxn.FlattenSound | madsim-etcd-client/src/service.rs:376-388 | operations with nested transactions panic exactly when their flattened sequence does, and otherwise do the same work, replies included, up to revision stamps |
| EtcdTxn.ComparesByOrder | madsim-etcd-client/src/service.rs:364-372 | of a stored key exactly one of less, equal and greater holds against any value, in the order of byte strings; of a missing key only not-equal holds |
| EtcdTxn.TxnIsSequential | madsim-etcd-client/src/service.rs:362-396 | a transaction takes the success branch if and only if every comparison holds beforehand, finishes if and only if this branch sent as separate requests finishes with no put refused, and then leaves exactly that store, with the revision set to start + 1, those events and those replies |
| EtcdTxn.TxnRefinesSequential | madsim-etcd-client/src/service.rs:362-396 | the same for the branch flattened to primitive operations, at any nesting depth, with stores, events and replies equal up to stamps |
| EtcdWatch.OfferFate | madsim-etcd-client/src/service.rs:234-243 | a watcher stays listed if and only if the event does not match or its bounded send succeeds, and its channel gains the event exactly in the second case |
| EtcdWatch.NoGaps | madsim-etcd-client/src/service.rs:226-244 | over any run of the bus a watcher was sent a prefix of the matching events, all of them while listed, and a dropped watcher never returns |
| EtcdWatch.GoneIsDropped | madsim-etcd-client/src/service.rs:234-243 | a watcher whose receiver has gone is sent nothing more, and is dropped exactly by the next matching event |
| EtcdWatch.NoLostWakeup | madsim-etcd-client/src/service.rs:565-571 | over any run of server and receivers, a watcher still listed that was sent nothing finds the leader record unchanged |
| EtcdWatch.SystemTrace | madsim-etcd-client/src/service.rs:210-244 | a run of server and receivers is the run of its requests on the store and a run of the bus that publishes, under every prefix, exactly the events the store emits there |
| EtcdCandidates.LookSays | madsim-etcd-client/src/service.rs:104-123 | a look wins exactly if the key's own record leads, ends with an expired session exactly if no key is under the name, and waits on exactly if another record leads |
| EtcdCandidates.CandidateIsWoken | madsim-etcd-client/src/service.rs:99-124 | if another record led and none does any more, an event was sent to the waiting candidate since or it was dropped |
| EtcdCandidates.LoopEndsIff | madsim-etcd-client/src/service.rs:104-123 | the waiting loop ends if and only if some look finds no other leader, and then with the verdict that the records of that moment justify; all read off the requests served |
| EtcdCandidates.NobodyWaitsInVain | madsim-etcd-client/src/service.rs:104-123 | a candidate still listed and waiting, with nothing queued, waits while another record leads, if one did at the start |
| EtcdCandidates.WaitingIsListed | madsim-etcd-client/src/service.rs:530-533 | a candidate told to wait is listed under its election's name with an empty channel of its own |
| EtcdCandidates.OthersWait | madsim-etcd-client/src/service.rs:104-123 | while a safe leader's key survives a run of server and receivers, looks under its key win and looks under every other key keep waiting |
| EtcdCandidates.MutualExclusion | madsim-etcd-client/src/service.rs:99-124 | once a candidate is told that it leads, by its campaign's reply or by a look, is safe, and while its key survives, a rival that waits goes on waiting and a rival that campaigns is not elected, in whatever run of server and receivers follows |
| EtcdCandidates.ElectionSafety | madsim-etcd-client/src/service.rs:487-535 | if two leases are told at two moments of one run from the empty server that they lead the same election, and the first was safe, its key was removed or re-created in between |
| EtcdCandidates.BidSafety | madsim-etcd-client/src/service.rs:487-535 | of a candidate elected by a bid it has just written nothing more is asked |
| EtcdCandidates.QueueFills | madsim-etcd-client/src/service.rs:234-243 | while nobody receives, an open channel collects the matching events up to its capacity of four and its watcher is dropped if and only if there were more |
| EtcdCandidates.DroppedIffOverflow | madsim-etcd-client/src/service.rs:530-533 | a waiting candidate is dropped exactly when the requests served meanwhile emit more events under its name than its channel has room for |
| EtcdCandidates.DroppedLoop | madsim-etcd-client/src/service.rs:104-123 | a dropped candidate takes one look per queued event and panics in the round after that if none of them ended its wait |
| EtcdCandidates.LoopPanicsIff | madsim-etcd-client/src/service.rs:104-123 | the waiting loop fails its expectation if and only if some first round leaves more events than the channel holds, every look made up to three rounds later lets the candidate wait on, and the server is up in the round after; all read off the requests served |
| EtcdAnswers.LeaderAnswer | madsim-etcd-client/src/service.rs:553-571 | asking for the leader and observing fail exactly on names whose range has no end, change nothing, and are answered with the leader, or with nobody exactly if no key is under the name |
| EtcdAnswers.ObserverIsListed | madsim-etcd-client/src/service.rs:565-571 | an observer is listed under the name with an empty channel of its own |
| EtcdAnswers.ObserverIsUpToDate | madsim-etcd-client/src/service.rs:563-571 | over any run, an observer still listed that was sent nothing was answered the record that still leads |
| EtcdAnswers.ResignExact | madsim-etcd-client/src/service.rs:573-583 | a resignation is refused for a missing key, panics exactly on an unknown lease, and otherwise removes just this record from store and lease, announces it once and moves the revision by one |
| EtcdAnswers.ResignSucceeds | madsim-etcd-client/src/service.rs:553-583 | after a resignation the leader of every name above the key is the first of the records left behind, or nobody if there is none |
| EtcdAnswers.ResignIsAnnounced | madsim-etcd-client/src/service.rs:573-583 | a waiting candidate with room is sent the deletion of the resigned record behind what it has queued, and no later request takes it away |
| EtcdAnswers.ResignHandsOver | madsim-etcd-client/src/service.rs:99-124 | in the round of a resignation a waiting candidate wins exactly if its record is the first left behind, expires exactly if none is left, and otherwise waits on |
| EtcdAnswers.CampaignBids | madsim-etcd-client/src/service.rs:495-517 | a campaign writes, attaches and announces a new record exactly if the candidate does not stand with this value and has a lease; without a lease it fails and costs a revision |
| EtcdAnswers.CampaignAnswer | madsim-etcd-client/src/service.rs:519-534 | a campaign is elected exactly if its record then leads, and told to wait exactly if another does |
| EtcdAnswers.WaitingIsRight | madsim-etcd-client/src/service.rs:99-124 | from a campaign's reply on, a candidate listed and waiting with nothing queued waits while another leads |
| EtcdAnswers.ProclaimThenGet | madsim-etcd-client/src/service.rs:537-551 | a proclaimed value is read back, with lease and creation revision kept and the announced modification revision, after any run that publishes no event of the key |
| EtcdAnswers.ProclaimKeepsLeader | madsim-etcd-client/src/service.rs:537-551 | no name changes its leader by a proclamation |
| EtcdAnswers.RevisionCounts | madsim-etcd-client/src/service.rs:274-583 | over any legal run the revision has moved once for each transaction whatever it writes, for each other write, grant, keep-alive and revocation that was not refused, for each tick that ended a lease, and for each campaign that did not stand already, refused or not; every answer carries the revision of its moment |
| EtcdService.EventBus.Subscribe | madsim-etcd-client/src/service.rs:228-231 | appends a watcher with an empty channel of its own |
| EtcdService.EventBus.Publish | madsim-etcd-client/src/service.rs:234-243 | the retain loop computes the specified bus |
| EtcdService.Service.Put | madsim-etcd-client/src/service.rs:274-319 | the in-place put takes the system to the specified state, event published, with the specified reply |
| EtcdService.Service.Get | madsim-etcd-client/src/service.rs:321-335 | the read computes the specified reply |
| EtcdService.Service.Delete | madsim-etcd-client/src/service.rs:343-360 | the in-place delete computes the specified step and publishes its event |
| EtcdService.Service.Txn | madsim-etcd-client/src/service.rs:362-396 | the recursive loop computes the specified step, replies and publications, and terminates |
| EtcdService.Service.Grant | madsim-etcd-client/src/service.rs:398-414 | draws until an id is neither zero nor taken, and grants that first usable one, or the id asked for |
| EtcdService.Service.Revoke | madsim-etcd-client/src/service.rs:416-428 | the loop over a hash set realises the specified step for some legal order |
| EtcdService.Service.KeepAlive | madsim-etcd-client/src/service.rs:430-441 | restores the granted time |
| EtcdService.Service.Tick | madsim-etcd-client/src/service.rs:466-485 | the nested loops over hash containers realise the specified step for some legal order |
| EtcdService.Service.Leader | madsim-etcd-client/src/service.rs:553-561 | the scan returns the specified leader |
| EtcdService.Service.Campaign | madsim-etcd-client/src/service.rs:487-535 | the in-place campaign computes the specified step, subscribing a candidate that must wait |
| EtcdService.Service.Proclaim | madsim-etcd-client/src/service.rs:537-551 | replaces value and modification revision only, and publishes |
| EtcdService.Service.Observe | madsim-etcd-client/src/service.rs:565-571 | subscribes first and answers with the leader |
| EtcdService.Service.Resign | madsim-etcd-client/src/service.rs:573-583 | removes the key from store and lease, and publishes |
| KafkaBroker.ProduceDealt | madsim-rdkafka/src/sim/broker.rs:71-101 | a batch deals its longest prefix of known topics round robin, topic by topic, on top of what was there |
| KafkaBroker.ProduceReady | madsim-rdkafka/src/sim/broker.rs:71-101 | with at least one partition per topic a batch never panics, and reports an unknown topic exactly when it stopped early |
| KafkaBroker.PlacedAt | madsim-rdkafka/src/sim/broker.rs:86-99 | the k-th message of n partitions lies at partition k mod n, offset k div n |
| KafkaBroker.ProductionOrder | madsim-rdkafka/src/sim/broker.rs:86-99 | the production order is recoverable from the partitions |
| KafkaBroker.Balanced | madsim-rdkafka/src/sim/broker.rs:86-90 | partition lengths differ by at most one |
| KafkaBroker.ProduceGrows | madsim-rdkafka/src/sim/broker.rs:92-99 | logs only grow at the end, offsets are positions, and the watermark is the length |
| KafkaBroker.CreatedTopic | madsim-rdkafka/src/sim/broker.rs:63-68 | a created topic has the partitions asked for, all empty, and is dealt to from the first on |
| KafkaFetch.ScanExact | madsim-rdkafka/src/sim/broker.rs:128-143 | the inner loop takes the longest stretch both byte limits allow |
| KafkaFetch.FetchFromExact | madsim-rdkafka/src/sim/broker.rs:104-146 | a fetch hands out, element by element, the stretch of the log its cursor moved over, within the total limit and each within the partition limit |
| KafkaFetch.EmptyIffStuck | madsim-rdkafka/src/sim/broker.rs:128-145 | a fetch is empty if and only if nothing is waiting or the first message waiting is above a limit |
| KafkaFetch.FetchFailsIff | madsim-rdkafka/src/sim/broker.rs:104-146 | a fetch fails if and only if all that waits before its first element that cannot be passed over fits the limits, and then with that element's fault |
| KafkaConsumer.OfJoined | madsim-rdkafka/src/sim/broker.rs:112-144 | of what a fetch hands out, an assigned partition gets exactly what its own element took |
| KafkaDelivery.FetchFlows | madsim-rdkafka/src/sim/consumer.rs:325-348 | a fetch extends, for every assigned partition, the stretch handed out, settles the end offsets it takes from, and hands out nothing else |
| KafkaDelivery.RunFlows | madsim-rdkafka/src/sim/consumer.rs:112-350 | delivery stays gap-free through any run of producing, polling, lost polls, adding and removing partitions |
| KafkaDelivery.GapFree | madsim-rdkafka/src/sim/consumer.rs:112-350 | from a fresh assignment, the messages given out and then those buffered are, per partition, exactly its log from the offset it was assigned at up to its cursor, in order, each once |
| KafkaDelivery.GapFreeAdded | madsim-rdkafka/src/sim/consumer.rs:128-350 | the same of a partition added in the middle of a run, from the offset it was added at |
| KafkaDelivery.NothingBeforeSettled | madsim-rdkafka/src/sim/broker.rs:117-143 | of a partition whose end offset no fetch has settled yet, nothing was given out |
| KafkaDelivery.PollProgress | madsim-rdkafka/src/sim/consumer.rs:323-350 | if every message fits, a poll gives out exactly one message while any is pending, and nothing only when none is |
| KafkaDelivery.PollingDrains | madsim-rdkafka/src/sim/consumer.rs:323-350 | polling as often as messages are pending gives out one each time and ends with every assigned partition fully given out |
| KafkaDelivery.SeekRestarts | madsim-rdkafka/src/sim/consumer.rs:192-255 | after a seek, delivery restarts at the positions asked for, and at the old cursors for partitions not named |
| KafkaDelivery.EarliestFromZero | madsim-rdkafka/src/sim/consumer.rs:257-265 | partitions assigned without an offset under the earliest policy are delivered from offset zero over any run |
| KafkaLatest.LatestOverRuns | madsim-rdkafka/src/sim/broker.rs:120-143 | over any run, a partition assigned at its end is delivered from the last message found by the first poll that takes one; so delivery begins with the first new message, re-delivers an old one or skips new ones exactly as that poll found one more, as many or still more messages than the assignment |
| KafkaLatest.LatestFromLast | madsim-rdkafka/src/sim/broker.rs:120-143 | under the latest policy a fetch of a partition with messages hands out its last message and leaves the cursor behind it |
| KafkaLatest.LatestSkips | madsim-rdkafka/src/sim/broker.rs:117-122 | a partition empty at the first fetch stays at its end, and of the messages that arrive before the next fetch only the last is handed out |
| KafkaDelivery.StaleAfterAssign | madsim-rdkafka/src/sim/consumer.rs:112-120 | a new assignment keeps the old buffer, so the next poll gives out a message of the old one |
| KafkaAssignment.AssignmentByHistory | madsim-rdkafka/src/sim/consumer.rs:128-176 | after any run a partition is assigned if and only if the last addition or removal that names it says so |
| KafkaAssignment.RemovedIsSilent | madsim-rdkafka/src/sim/consumer.rs:152-176 | of a removed partition nothing is given out any more, through any run that does not add it, but what was buffered |
| KafkaAssignment.DeliveredAsAsked | madsim-rdkafka/src/sim/consumer.rs:112-120 | an assignment holds the elements asked for, unset offsets filled by the policy, buffer kept, and each is delivered from its offset over any run |
| KafkaProducer.Conservation | madsim-rdkafka/src/sim/producer/base_producer.rs:180-326 | after any operations, what was taken for sending followed by what is pending is exactly the accepted records in order without those an abort cut away |
| KafkaProducer.AnswersByHistory | madsim-rdkafka/src/sim/producer/base_producer.rs:186-325 | every operation is answered as what was asked and answered before decides: initialized or not, a transaction begun and not aborted or not, room or not; a send panics exactly between transactions |
| KafkaProducer.FlushTakesAll | madsim-rdkafka/src/sim/producer/base_producer.rs:251-315 | a flush of a plain producer, and a commit, take all that is pending, so that all accepted and not aborted has been taken; a committed transaction goes on |
| KafkaProducer.ModesAreFinal | madsim-rdkafka/src/sim/producer/base_producer.rs:165-325 | plain and transactional producers never turn into each other, only a producer with a transactional id is transactional, and the plain buffer keeps within its maximum |
| KafkaPipeline.EndToEnd | madsim-rdkafka/src/sim/consumer.rs:323-350 | over any interleaving of producer, broker and consumer steps, a partition assigned at an offset has been handed its round-robin share of the arrived records from that offset up to its cursor; without losses, arrived plus pending is all that was accepted and not aborted |
| KafkaPipeline.FlushArrives | madsim-rdkafka/src/sim/producer/base_producer.rs:219-263 | after a flush or commit, on reliable ways, everything accepted and not aborted has arrived at the broker in order |
| KafkaPipeline.DeliveredInFull | madsim-rdkafka/src/sim/consumer.rs:323-350 | and then polling as often as messages are pending hands out, for each partition assigned from its beginning, its whole share of these records |
| KafkaService.Broker.CreateTopic | madsim-rdkafka/src/sim/broker.rs:63-68 | creates a topic with empty logs, replacing one of the same name |
| KafkaService.Broker.AppendOne | madsim-rdkafka/src/sim/broker.rs:80-101 | the in-place append computes the specified logs |
| KafkaService.Broker.Produce | madsim-rdkafka/src/sim/broker.rs:71-77 | the loop computes the specified logs, stopping at the first unknown topic |
| KafkaService.Broker.ScanPartition | madsim-rdkafka/src/sim/broker.rs:128-143 | the inner loop computes the specified scan |
| KafkaService.Broker.Fetch | madsim-rdkafka/src/sim/broker.rs:104-146 | the outer loop computes the specified messages and cursors, error cases included |
| KafkaService.BaseConsumer.Assign | madsim-rdkafka/src/sim/consumer.rs:112-120 | replaces the assignment, offsets reset by policy, buffer kept |
| KafkaService.BaseConsumer.IncrementalAssign | madsim-rdkafka/src/sim/consumer.rs:128-150 | the loop adds exactly the partitions not assigned yet |
| KafkaService.BaseConsumer.IncrementalUnassign | madsim-rdkafka/src/sim/consumer.rs:158-176 | the loop keeps exactly the partitions not named |
| KafkaService.BaseConsumer.SeekPartitions | madsim-rdkafka/src/sim/consumer.rs:192-255 | all or nothing: a request that cannot be sought changes nothing, otherwise the buffer is cleared and the cursors set |
| KafkaService.BaseConsumer.Poll | madsim-rdkafka/src/sim/consumer.rs:323-350 | fetches when the buffer is empty and pops; a failed fetch changes nothing |
| KafkaService.BaseProducer.Send | madsim-rdkafka/src/sim/producer/base_producer.rs:186-218 | buffers the record or refuses it on a full queue |
| KafkaService.BaseProducer.Flush | madsim-rdkafka/src/sim/producer/base_producer.rs:251-263 | takes a non-empty plain buffer for sending |
| KafkaService.BaseProducer.InitTransactions | madsim-rdkafka/src/sim/producer/base_producer.rs:266-280 | makes a fresh producer with a transactional id transactional |
| KafkaService.BaseProducer.BeginTransaction | madsim-rdkafka/src/sim/producer/base_producer.rs:283-296 | opens a transaction when none is open |
| KafkaService.BaseProducer.CommitTransaction | madsim-rdkafka/src/sim/producer/base_producer.rs:299-315 | takes the open buffer for sending and leaves the transaction open |
| KafkaService.BaseProducer.AbortTransaction | madsim-rdkafka/src/sim/producer/base_producer.rs:318-325 | drops the open buffer and closes the transaction |
| S3Store.StepRefines | madsim-aws-sdk-s3/src/server/service.rs:243-510 | what a reader sees changes under a request exactly as a plain map does under put, completion and deletion, and not at all otherwise |
| S3Store.RunRefines | madsim-aws-sdk-s3/src/server/service.rs:243-510 | after any run a reader sees what the last write of a plain map left |
| S3Store.GetIsPeek | madsim-aws-sdk-s3/src/server/service.rs:369-433 | a read answers with the visible body, with the bytes of it that a spelled-out range names, or with no such key; a range outside the body panics; a part number outside the body is an error and any other panics, being unfinished |
| S3Store.RunHidden | madsim-aws-sdk-s3/src/server/service.rs:243-510 | an entry that is not completed always has an empty body |
| S3Store.BatchIsOneByOne | madsim-aws-sdk-s3/src/server/service.rs:481-510 | a batch delete equals deleting its keys one by one, and reports them all |
| S3Range.RangeRoundTrip | madsim-aws-sdk-s3/src/server/service.rs:387-417 | parsing a spelled-out range and slicing selects exactly the bytes it names, if its bounds fit a machine word, and is an error otherwise |
| S3Range.RangeIsStandardIff | madsim-aws-sdk-s3/src/server/service.rs:412-417 | a range the standard can satisfy is answered as the standard says if and only if it does not reach beyond the body; otherwise the server panics |
| S3Range.UnsatisfiableAnsweredIff | madsim-aws-sdk-s3/src/server/service.rs:387-417 | of the ranges the standard cannot satisfy, exactly which ones the server answers, and with what; on the others it panics |
| S3Multipart.SortExact | madsim-aws-sdk-s3/src/server/service.rs:325-325 | sorting the listed parts yields a sorted permutation |
| S3Multipart.SortStable | madsim-aws-sdk-s3/src/server/service.rs:325-325 | sorting is stable, and lines without a number come first |
| S3Multipart.LineBringsFirst | madsim-aws-sdk-s3/src/server/service.rs:326-341 | a line brings the body of the first uploaded part it asks for, number 0 if it gives none, any tag if it gives none, and nothing if there is no such part |
| S3Multipart.AssembleAnyOrder | madsim-aws-sdk-s3/src/server/service.rs:322-344 | in whatever order parts were uploaded and listed, completion joins the wanted ones by rising part number |
| S3Multipart.DeleteKeysKeepUploads | madsim-aws-sdk-s3/src/server/service.rs:467-477 | deleting keeps the uploads in progress under the deleted keys |
| S3Multipart.RunKeepsParts | madsim-aws-sdk-s3/src/server/service.rs:269-300 | through any run that does not end it, an upload's parts are exactly those uploaded to it, in order |
| S3Multipart.MultipartAssembles | madsim-aws-sdk-s3/src/server/service.rs:243-346 | the whole life of an upload: readers see the pieces joined by rising part number, whatever else went on |
| S3Uploads.CreateBegins | madsim-aws-sdk-s3/src/server/service.rs:243-267 | an upload begins without parts, unseen by readers, and leaves every other upload alone |
| S3Uploads.AbortForgets | madsim-aws-sdk-s3/src/server/service.rs:348-367 | an abort succeeds if and only if the upload is there, forgets it, keeps every other upload's parts and changes nothing for readers |
| S3Uploads.CompletionForgets | madsim-aws-sdk-s3/src/server/service.rs:302-346 | the same of a completion, which readers see only if it lists parts |
| S3Uploads.UploadsByHistory | madsim-aws-sdk-s3/src/server/service.rs:243-367 | after any run a request on an upload succeeds if and only if the last of its creations, completions and aborts in the run says that it is there; otherwise it is refused and changes nothing |
| S3Uploads.ForgottenForGood | madsim-aws-sdk-s3/src/server/service.rs:269-367 | through any run that does not draw its id again, an upload that is not there takes no part and can be neither completed nor aborted |
| S3Uploads.AbortedForGood | madsim-aws-sdk-s3/src/server/service.rs:269-367 | in particular one that was aborted |
| S3Uploads.DeleteDropsIff | madsim-aws-sdk-s3/src/server/service.rs:455-479 | deleting a visible key drops its entry if and only if no upload of it is in progress, and keeps the uploads |
| S3Uploads.BucketsByHistory | madsim-aws-sdk-s3/src/server/service.rs:235-241 | after any run requests on a bucket are told that there is none, changing nothing, unless it was there before or was created; exactly then creating it again panics |
| S3Service.Service.CreateBucket | madsim-aws-sdk-s3/src/server/service.rs:235-241 | adds an empty bucket |
| S3Service.Service.CreateMultipartUpload | madsim-aws-sdk-s3/src/server/service.rs:243-267 | registers a new upload, creating a hidden entry if needed |
| S3Service.Service.UploadPart | madsim-aws-sdk-s3/src/server/service.rs:269-300 | appends a part to its upload |
| S3Service.Service.FindBody | madsim-aws-sdk-s3/src/server/service.rs:327-339 | the inner loop finds the first part a line names |
| S3Service.Service.CompleteMultipartUpload | madsim-aws-sdk-s3/src/server/service.rs:302-346 | the nested loops compute the specified object |
| S3Service.Service.AbortMultipartUpload | madsim-aws-sdk-s3/src/server/service.rs:348-367 | forgets the upload and nothing else |
| S3Service.Service.GetObject | madsim-aws-sdk-s3/src/server/service.rs:369-433 | computes the specified reply for whole, ranged and numbered reads, errors included |
| S3Service.Service.PutObject | madsim-aws-sdk-s3/src/server/service.rs:435-453 | sets body and completion, keeping uploads |
| S3Service.Service.DeleteObject | madsim-aws-sdk-s3/src/server/service.rs:455-479 | drops a completed entry, or only its content while uploads are in progress |
| S3Service.Service.DeleteObjects | madsim-aws-sdk-s3/src/server/service.rs:481-510 | the loop computes the specified bucket |
| Mailbox.OfferExact | madsim/src/sim/net/endpoint.rs:332-351 | the delivery loop gives the message to an open receiver of its tag if there is one, otherwise clears every waiter of the tag; no other waiter is lost |
| Mailbox.StepConserves | madsim/src/sim/net/endpoint.rs:331-363 | a step moves messages between store and receivers without losing or copying any |
| Mailbox.NothingLost | madsim/src/sim/net/endpoint.rs:331-363 | after any run every delivered message is held by one receiver of its tag or stored, no tag is both waiting and stored, and a wanted unserved receiver is still registered |
| Mailbox.AbandonedGetsNothing | madsim/src/sim/net/endpoint.rs:332-351 | an abandoned receiver gets nothing any more, over any run |
| Mailbox.OrderKeptIff | madsim/src/sim/net/endpoint.rs:353-362 | serving a stored message keeps the order of the messages of a tag if and only if the last message, which takes its place, is not moved ahead of another message of that tag |
| Mailbox.TagOrderNotKept | madsim/src/sim/net/endpoint.rs:353-362 | two messages of one tag can be received in the reverse of the order they were delivered in |
| Mailbox.TurnsKeptIff | madsim/src/sim/net/endpoint.rs:332-351 | a delivery gives its message to the first receiver of the tag still wanted and keeps the order of the others of a tag if and only if none of its swaps moves the last waiter ahead of another of that tag still wanted |
| Mailbox.TurnsNotKept | madsim/src/sim/net/endpoint.rs:332-351 | with receivers of tags t, u, u waiting in turn, serving t makes the two receivers of u be served in reverse |
| Mailbox.Inbox.Deliver | madsim/src/sim/net/endpoint.rs:332-351 | the index loop with swap-removal computes the specified mailbox and terminates |
| Mailbox.Inbox.Recv | madsim/src/sim/net/endpoint.rs:353-362 | serves the new receiver from the store or registers it |
| Channel.OrderedDelivery | madsim/src/sim/net/mod.rs:367-405 | for any pattern of sends, link failures, scheduling and closing: the yielded messages are the first packets sent, in order; one sent with the link up is due at its send time plus the link's answer and not waited for; one sent with the link down is waited for, each further wait after a test that failed at the end of the waits before, and is due at the time of a link test made when its waits were over plus its answer; nothing is yielded before it is due or before its waits are over, yield times never go back, and the k-th wait is min(2^k ms, 10 s) |
| Channel.RunTied | madsim/src/sim/net/mod.rs:385-421 | at every moment yielded, in-hand and queued messages are, packet by packet, those of the sends made while both ends existed |
| Channel.StreamEnds | madsim/src/sim/net/mod.rs:385-402 | the stream ends only after the sender is gone and everything it sent has been yielded |
| Channel.StreamStaysEnded | madsim/src/sim/net/mod.rs:385-402 | an ended stream yields nothing more, whatever happens |
| Channel.EverythingIsYielded | madsim/src/sim/net/mod.rs:385-402 | whatever happened before, once the link stays up, running the receiver three times per message at long enough intervals yields everything sent, and once more ends the stream if the sender is gone |
| Channel.RunOrdered | madsim/src/sim/net/mod.rs:385-402 | yielded, in-hand and queued messages are always exactly the sent ones in order |
| Channel.AwaitLink | madsim/src/sim/net/mod.rs:387-398 | the retry loop stops at the first answer that gives a link, having waited the doubling times in between |
| Channel.OrderedChannel.Push | madsim/src/sim/net/mod.rs:417-421 | the sender stamps the packet with the link state of the moment and enqueues it, or is refused once the receiver is gone |
| Channel.OrderedChannel.Resume | madsim/src/sim/net/mod.rs:385-402 | the receiver advances to its next suspension, or to the end of the stream, as specified |

## Left out

- Request plumbing: asynchronous dispatch, endpoints, timeouts, injected request failures and request size limits around the services.
- etcd: reads at a past revision and compaction (unfinished in the source), `lease_time_to_live`, `lease_leases`, `status` and response sizes, which would only add easy members; the TOML dump, of which only the byte string form is modelled.
- etcd: 64-bit overflow of revisions and times to live.
- Kafka: message headers and delivery callbacks, lookup of offsets by time, metadata, watermark requests, consumer groups and offset commits.
- Kafka: delivery runs do not create topics; creating a topic again discards its logs, so nothing could be claimed across it. Concurrent polls of one consumer, which the source marks as unsupported.
- Kafka: stored and tail offsets, which are unfinished in the source: fetching with one is a panic here too.
- S3: reading by part number is unfinished in the source and a panic here; listing and head requests, lifecycle rules, modification times and the content length, which no operation sets, are left out.
- Channel: what a dropped receiver leaves unread is not reclaimed in the model, and tasks that await the closing of a channel are left out.
- Network: random delays, hooks, name resolution, virtual servers and the test of the link itself.
- The task executor, the clock, the random number log, file systems, DNS, tonic, the macros and the bindings to the C Kafka library.
