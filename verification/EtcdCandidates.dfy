/** Candidates of an election: those told that they lead, by a reply or by a look of their own, and
    those that wait for an event, look again, and may be dropped by the bus. */
module EtcdCandidates {
  import opened ByteStrings
  import opened EtcdStore
  import opened EtcdReplay
  import opened EtcdLeader
  import opened EtcdElection
  import opened EtcdWatch

  // ---- one look --------------------------------------------------------------------------

  datatype Verdict = Won(revision: int, leader: KeyValue) | Expired | KeepWaiting

  /** What a waiting candidate concludes when an event wakes it and it looks at the leader. */
  function Look(s: Store, name: Bytes, key: Bytes): Verdict
    requires Rangeable(name)
  {
    match Leader(s.kv, name)
    case None => Verdict.Expired
    case Some(kv) => if kv.key == key then Won(s.revision, kv) else KeepWaiting
  }

  /** No key is under the name. */
  ghost predicate NobodyStands(kv: map<Bytes, KeyValue>, name: Bytes) {
    forall k :: k in kv ==> !(name <= k)
  }

  /** The record of another key leads. */
  ghost predicate AnotherLeads(kv: map<Bytes, KeyValue>, name: Bytes, key: Bytes) {
    exists r :: IsLeader(kv, name, r) && r.key != key
  }

  /** What a verdict says of the records in the store. */
  ghost predicate Justified(s: Store, name: Bytes, key: Bytes, verdict: Verdict) {
    match verdict
    case Won(revision, r) => revision == s.revision && r.key == key && IsLeader(s.kv, name, r)
    case Expired => NobodyStands(s.kv, name)
    case KeepWaiting => AnotherLeads(s.kv, name, key)
  }

  /** A look comes to the one verdict that the records justify. */
  lemma LookSays(s: Store, name: Bytes, key: Bytes)
    requires WellKeyed(s.kv) && Rangeable(name)
    ensures forall v: Verdict :: Look(s, name, key) == v <==> Justified(s, name, key, v)
  {
    LeaderSpec(s.kv, name);
    forall r | IsLeader(s.kv, name, r) ensures Leader(s.kv, name) == Some(r) { LeaderUnique(s.kv, name, r); }
  }

  /** A candidate that keeps waiting is right to: if another key led and no longer does, then an
      event was sent to it since, or the bus has dropped it for good. */
  lemma {:induction false} CandidateIsWoken(m: System, steps: seq<SystemStep>, w: Watcher, key: Bytes)
    requires BusOk(m.bus) && WellKeyed(m.store.kv) && w in m.bus.list && Rangeable(w.prefix)
    requires SystemRun(m, steps).Up?
    requires AnotherLeads(m.store.kv, w.prefix, key)
    requires !AnotherLeads(SystemRun(m, steps).system.store.kv, w.prefix, key)
    ensures var r := SystemRun(m, steps).system;
      Unwatched(r.bus, w.channel) || m.bus.channels[w.channel].Sent() < r.bus.channels[w.channel].Sent()
  {
    SystemTrace(m, steps, w.prefix);
    NoGaps(m.bus, Trace(m.store, steps), w);
    var r := SystemRun(m, steps).system;
    if w in r.bus.list && r.bus.channels[w.channel].Sent() == m.bus.channels[w.channel].Sent() {
      NoLostWakeup(m, steps, w);
      RunReplays(m.store, Requests(steps));
      SameLeader(m.store.kv, r.store.kv, w.prefix, key);
    }
  }

  lemma SameLeader(kv: map<Bytes, KeyValue>, kv': map<Bytes, KeyValue>, name: Bytes, key: Bytes)
    requires WellKeyed(kv) && WellKeyed(kv') && Rangeable(name) && Leader(kv, name) == Leader(kv', name)
    ensures AnotherLeads(kv, name, key) <==> AnotherLeads(kv', name, key)
  {
    LeaderSpec(kv, name);
    forall r | IsLeader(kv, name, r) || IsLeader(kv', name, r) ensures Leader(kv, name) == Some(r) {
      if IsLeader(kv, name, r) { LeaderUnique(kv, name, r); } else { LeaderUnique(kv', name, r); }
    }
    LeaderSpec(kv', name);
  }

  // ---- mutual exclusion ------------------------------------------------------------------

  /** A candidate learns in m that it leads: its campaign was just answered so, or its look says so. */
  ghost predicate ToldElected(before: System, m: System, name: Bytes, value: Bytes, lease: LeaseId)
    requires BusOk(before.bus) && Rangeable(name)
  {
    || Look(m.store, name, CampaignKey(name, lease)).Won?
    || (var o := CampaignStep(before.store, name, value, lease);
        && SystemNext(before, Serve(CampaignRequest(name, value, lease))) == Up(m)
        && o.Done? && o.reply.Elected?)
  }

  /** Either way it does lead. */
  lemma ToldElectedWins(before: System, m: System, name: Bytes, value: Bytes, lease: LeaseId)
    requires BusOk(before.bus) && Rangeable(name) && ToldElected(before, m, name, value, lease)
    ensures Look(m.store, name, CampaignKey(name, lease)).Won?
  {
    if !Look(m.store, name, CampaignKey(name, lease)).Won? {
      CampaignEffect(before.store, name, value, lease);
    }
  }

  /** While a safe leader's key survives, every look under its own key wins and every look under
      another key keeps waiting, whatever the server and the receivers do. */
  lemma {:induction false} OthersWait(m: System, steps: seq<SystemStep>, name: Bytes, key: Bytes, other: Bytes)
    requires BusOk(m.bus) && WellKeyed(m.store.kv) && Rangeable(name) && Safe(m.store, name)
    requires Look(m.store, name, key).Won? && other != key && SystemRun(m, steps).Up?
    requires Survives(m.store, SystemRun(m, steps).system.store, key)
    ensures var s := SystemRun(m, steps).system.store;
      Look(s, name, key).Won? && Look(s, name, other).KeepWaiting?
  {
    SystemStore(m, steps);
    LeaderStays(m.store, Requests(steps), name);
  }

  /** Mutual exclusion: from the moment a candidate was told that it leads and is safe, and for as long
      as its key survives, a rival that waits goes on waiting and a rival that campaigns is not elected. */
  lemma {:induction false} MutualExclusion(before: System, m: System, steps: seq<SystemStep>, name: Bytes, value: Bytes,
                                           winner: LeaseId, rival: LeaseId, bid: Bytes)
    requires BusOk(before.bus) && BusOk(m.bus) && WellKeyed(m.store.kv) && Rangeable(name) && Safe(m.store, name)
    requires ToldElected(before, m, name, value, winner) && rival != winner && SystemRun(m, steps).Up?
    requires Survives(m.store, SystemRun(m, steps).system.store, CampaignKey(name, winner))
    ensures var s := SystemRun(m, steps).system.store; var o := CampaignStep(s, name, bid, rival);
      && Look(s, name, CampaignKey(name, winner)).Won?
      && Look(s, name, CampaignKey(name, rival)).KeepWaiting?
      && (o.Done? ==> !o.reply.Elected?)
  {
    if CampaignKey(name, rival) == CampaignKey(name, winner) { CampaignKeyInjective(name, rival, winner); }
    ToldElectedWins(before, m, name, value, winner);
    OthersWait(m, steps, name, CampaignKey(name, winner), CampaignKey(name, rival));
    SystemStore(m, steps);
    RivalWaits(m.store, Requests(steps), name, bid, rival);
  }

  const Start := System(EmptyStore, EmptyBus)

  lemma {:induction false} SystemSplit(m: System, x: seq<SystemStep>, y: seq<SystemStep>)
    requires BusOk(m.bus) && SystemRun(m, x + y).Up?
    ensures SystemRun(m, x).Up? && SystemRun(SystemRun(m, x).system, y) == SystemRun(m, x + y)
  {
    if y == [] {
      assert x + y == x;
    } else {
      assert (x + y)[..|x + y| - 1] == x + y[..|y| - 1];
      SystemSplit(m, x, y[..|y| - 1]);
    }
  }

  /** At the end of a run from the start, the holder of the lease is told that it leads. */
  ghost predicate LeadsAfter(steps: seq<SystemStep>, name: Bytes, lease: LeaseId)
    requires SystemRun(Start, steps).Up? && Rangeable(name)
  {
    var m := SystemRun(Start, steps).system;
    || Look(m.store, name, CampaignKey(name, lease)).Won?
    || (&& steps != [] && var before := SystemRun(Start, steps[..|steps| - 1]); var last := steps[|steps| - 1];
        && before.Up? && last.Serve? && last.request.CampaignRequest?
        && last.request.name == name && last.request.lease == lease
        && ToldElected(before.system, m, name, last.request.value, lease))
  }

  lemma {:induction false} LeadsAfterWins(steps: seq<SystemStep>, name: Bytes, lease: LeaseId)
    requires SystemRun(Start, steps).Up? && Rangeable(name) && LeadsAfter(steps, name, lease)
    ensures Look(SystemRun(Start, steps).system.store, name, CampaignKey(name, lease)).Won?
  {
    var m := SystemRun(Start, steps).system;
    if !Look(m.store, name, CampaignKey(name, lease)).Won? {
      var before := SystemRun(Start, steps[..|steps| - 1]).system;
      ToldElectedWins(before, m, name, steps[|steps| - 1].request.value, lease);
    }
  }

  /** Election safety from the first request on: if two leases are told, at two moments of one run,
      that they lead the same election, and the first was safe, then its key was gone or re-created by
      the second. */
  lemma {:induction false} ElectionSafety(x: seq<SystemStep>, y: seq<SystemStep>, name: Bytes, a: LeaseId, b: LeaseId)
    requires SystemRun(Start, x).Up? && SystemRun(Start, x + y).Up?
    requires Rangeable(name) && a != b && LeadsAfter(x, name, a) && LeadsAfter(x + y, name, b)
    requires Safe(SystemRun(Start, x).system.store, name)
    ensures !Survives(SystemRun(Start, x).system.store, SystemRun(Start, x + y).system.store, CampaignKey(name, a))
  {
    LeadsAfterWins(x, name, a);
    LeadsAfterWins(x + y, name, b);
    SystemSplit(Start, x, y);
    SystemStore(Start, x);
    RunReplays(EmptyStore, Requests(x));
    Exclusive(SystemRun(Start, x).system, y, name, a, b);
  }

  lemma {:induction false} Exclusive(m: System, steps: seq<SystemStep>, name: Bytes, a: LeaseId, b: LeaseId)
    requires BusOk(m.bus) && WellKeyed(m.store.kv) && Rangeable(name) && Safe(m.store, name) && a != b
    requires SystemRun(m, steps).Up? && Look(m.store, name, CampaignKey(name, a)).Won?
    requires Look(SystemRun(m, steps).system.store, name, CampaignKey(name, b)).Won?
    ensures !Survives(m.store, SystemRun(m, steps).system.store, CampaignKey(name, a))
  {
    if Survives(m.store, SystemRun(m, steps).system.store, CampaignKey(name, a)) {
      if CampaignKey(name, a) == CampaignKey(name, b) { CampaignKeyInjective(name, a, b); }
      OthersWait(m, steps, name, CampaignKey(name, a), CampaignKey(name, b));
    }
  }

  /** The last request was the campaign of the lease, which wrote its bid and was elected. */
  ghost predicate WroteBid(steps: seq<SystemStep>, name: Bytes, lease: LeaseId)
    requires SystemRun(Start, steps).Up?
  {
    && steps != [] && var before := SystemRun(Start, steps[..|steps| - 1]); var last := steps[|steps| - 1];
    && before.Up? && last.Serve? && last.request.CampaignRequest?
    && last.request.name == name && last.request.lease == lease
    && var o := CampaignStep(before.system.store, name, last.request.value, lease);
    o.Done? && o.reply.Elected? && o.events != []
  }

  lemma {:induction false} WroteBidIsSafe(steps: seq<SystemStep>, name: Bytes, lease: LeaseId)
    requires SystemRun(Start, steps).Up? && Rangeable(name) && WroteBid(steps, name, lease)
    ensures Safe(SystemRun(Start, steps).system.store, name) && LeadsAfter(steps, name, lease)
  {
    var init, last := steps[..|steps| - 1], steps[|steps| - 1];
    SystemStore(Start, init);
    RunReplays(EmptyStore, Requests(init));
    BidServed(SystemRun(Start, init).system, name, last.request.value, lease);
  }

  lemma BidServed(before: System, name: Bytes, value: Bytes, lease: LeaseId)
    requires BusOk(before.bus) && WellKeyed(before.store.kv) && Rangeable(name)
    requires var o := CampaignStep(before.store, name, value, lease); o.Done? && o.reply.Elected? && o.events != []
    ensures var r := SystemNext(before, Serve(CampaignRequest(name, value, lease)));
      r.Up? && Safe(r.system.store, name) && ToldElected(before, r.system, name, value, lease)
  {
    WrittenBidIsSafe(before.store, name, value, lease);
  }

  /** So of a candidate elected by a bid it has just written nothing more is asked. */
  lemma {:induction false} BidSafety(x: seq<SystemStep>, y: seq<SystemStep>, name: Bytes, a: LeaseId, b: LeaseId)
    requires SystemRun(Start, x).Up? && SystemRun(Start, x + y).Up?
    requires Rangeable(name) && a != b && WroteBid(x, name, a) && LeadsAfter(x + y, name, b)
    ensures !Survives(SystemRun(Start, x).system.store, SystemRun(Start, x + y).system.store, CampaignKey(name, a))
  {
    WroteBidIsSafe(x, name, a);
    ElectionSafety(x, y, name, a, b);
  }

  // ---- the waiting loop ------------------------------------------------------------------

  /** What the loop's `recv` and the look after it come to: nothing queued yet, nothing queued and no
      sender left, or an event taken and a verdict.  No other task runs between the two. */
  datatype Wake = Asleep | SenderDropped | Looked(system: System, verdict: Verdict)

  ghost predicate HasChannel(m: System, w: Watcher) {
    BusOk(m.bus) && w.channel < |m.bus.channels| && Rangeable(w.prefix)
  }

  ghost function WakeUp(m: System, w: Watcher, key: Bytes): (r: Wake)
    requires HasChannel(m, w)
    ensures r.Looked? ==> HasChannel(r.system, w)
  {
    if m.bus.channels[w.channel].queue != [] then
      BusNextOk(m.bus, Taken(w.channel));
      Looked(m.(bus := BusNext(m.bus, Taken(w.channel))), Look(m.store, w.prefix, key))
    else if Unwatched(m.bus, w.channel) then SenderDropped
    else Asleep
  }

  datatype Wait =
    | Pending(system: System)
    | Ended(system: System, verdict: Verdict)
    | Panicked   // "sender should not drop"
    | ServerDown // a request of somebody else panicked

  /** The loop, when the rest of the system takes the scheduled steps before each of its rounds. */
  ghost function WaitLoop(m: System, w: Watcher, key: Bytes, schedule: seq<seq<SystemStep>>): (r: Wait)
    requires HasChannel(m, w)
    ensures r.Pending? ==> HasChannel(r.system, w)
  {
    if schedule == [] then Pending(m)
    else
      var n := |schedule| - 1;
      match WaitLoop(m, w, key, schedule[..n])
      case Pending(t) => LoopRound(t, w, key, schedule[n])
      case done => done
  }

  ghost function LoopRound(m: System, w: Watcher, key: Bytes, steps: seq<SystemStep>): (r: Wait)
    requires HasChannel(m, w)
    ensures r.Pending? ==> HasChannel(r.system, w)
  {
    match SystemRun(m, steps)
    case Down => ServerDown
    case Up(t) =>
      match WakeUp(t, w, key)
      case Asleep => Pending(t)
      case SenderDropped => Panicked
      case Looked(u, verdict) => if verdict.KeepWaiting? then Pending(u) else Ended(u, verdict)
  }

  /** Nobody but the candidate receives from its channel or closes it. */
  predicate LeavesChannel(steps: seq<SystemStep>, c: nat) {
    Receive(c) !in steps && HangUp(c) !in steps
  }

  predicate HandsOff(trace: seq<BusStep>, c: nat) {
    Taken(c) !in trace && Closed(c) !in trace
  }

  lemma {:induction false} StepHandsOff(s: Store, step: SystemStep, c: nat)
    requires step != Receive(c) && step != HangUp(c)
    ensures HandsOff(StepTrace(s, step), c)
  {
  }

  lemma {:induction false} TraceHandsOff(s: Store, steps: seq<SystemStep>, c: nat)
    requires LeavesChannel(steps, c)
    ensures HandsOff(Trace(s, steps), c)
  {
    if steps != [] {
      var init, last := steps[..|steps| - 1], steps[|steps| - 1];
      assert last in steps;
      TraceHandsOff(s, init, c);
      var o := Run(s, Requests(init));
      if o.Ran? { StepHandsOff(o.store, last, c); }
    }
  }

  function Capped(queue: seq<Event>): seq<Event> {
    if |queue| <= CAPACITY then queue else queue[..CAPACITY]
  }

  lemma FillOne(b: Bus, step: BusStep, w: Watcher)
    requires BusOk(b) && w in b.list && step != Taken(w.channel) && step != Closed(w.channel)
    requires b.channels[w.channel].open && |b.channels[w.channel].queue| <= CAPACITY
    ensures var ch := b.channels[w.channel]; var r := BusNext(b, step);
      var queue := ch.queue + if step.Published? && Matches(w.prefix, step.event) then [step.event] else [];
      && (w in r.list <==> |queue| <= CAPACITY) && (w in r.list || Unwatched(r, w.channel))
      && r.channels[w.channel] == ch.(queue := Capped(queue))
  {
    WatchedNext(b, step, w);
    if step.Published? { OfferFate(b.list, b.channels, step.event, w); }
  }

  lemma UnwatchedKeeps(b: Bus, step: BusStep, c: nat)
    requires BusOk(b) && c < |b.channels| && Unwatched(b, c) && step != Taken(c) && step != Closed(c)
    ensures Unwatched(BusNext(b, step), c) && BusNext(b, step).channels[c] == b.channels[c]
  {
    UnwatchedNext(b, step, c);
    if step.Published? { OfferOther(b.list, b.channels, step.event, c); }
  }

  /** While nobody receives, an open channel collects the matching events up to its capacity, and its
      watcher is dropped if and only if there were more. */
  lemma {:induction false} QueueFills(b: Bus, trace: seq<BusStep>, w: Watcher)
    requires BusOk(b) && w in b.list && HandsOff(trace, w.channel)
    requires b.channels[w.channel].open && |b.channels[w.channel].queue| <= CAPACITY
    ensures var ch := b.channels[w.channel]; var r := BusRun(b, trace);
      var queue := ch.queue + Matching(w.prefix, trace);
      && (w in r.list <==> |queue| <= 4) && (w in r.list || Unwatched(r, w.channel))
      && r.channels[w.channel] == ch.(queue := if |queue| <= 4 then queue else queue[..4])
  {
    if trace != [] {
      var init, last := trace[..|trace| - 1], trace[|trace| - 1];
      assert trace == init + [last];
      QueueFills(b, init, w);
      var mid := BusRun(b, init);
      if w in mid.list {
        FillOne(mid, last, w);
      } else {
        UnwatchedKeeps(mid, last, w.channel);
      }
    }
  }

  lemma {:induction false} DroppedStays(b: Bus, trace: seq<BusStep>, c: nat)
    requires BusOk(b) && c < |b.channels| && Unwatched(b, c) && HandsOff(trace, c)
    ensures Unwatched(BusRun(b, trace), c) && BusRun(b, trace).channels[c] == b.channels[c]
  {
    if trace != [] {
      var init, last := trace[..|trace| - 1], trace[|trace| - 1];
      assert trace == init + [last];
      DroppedStays(b, init, c);
      UnwatchedKeeps(BusRun(b, init), last, c);
    }
  }

  function Queue(m: System, w: Watcher): seq<Event>
    requires w.channel < |m.bus.channels|
  {
    m.bus.channels[w.channel].queue
  }

  /** The candidate is on the list, its receiver alive and its queue within bounds. */
  ghost predicate Listed(m: System, w: Watcher) {
    HasChannel(m, w) && w in m.bus.list && m.bus.channels[w.channel].open && |Queue(m, w)| <= CAPACITY
  }

  /** The bus has given the candidate up. */
  ghost predicate Dropped(m: System, w: Watcher) {
    HasChannel(m, w) && Unwatched(m.bus, w.channel)
  }

  /** What the candidate's channel holds after the steps, if it does not receive meanwhile. */
  function Incoming(m: System, w: Watcher, steps: seq<SystemStep>): seq<Event>
    requires w.channel < |m.bus.channels|
  {
    var o := Run(m.store, Requests(steps));
    Queue(m, w) + if o.Ran? then Under(w.prefix, o.events) else []
  }

  /** A waiting candidate is dropped exactly when the requests served meanwhile emit more events under
      its name than its channel has room for; then its queue is full. */
  lemma {:induction false} DroppedIffOverflow(m: System, steps: seq<SystemStep>, w: Watcher)
    requires Listed(m, w) && LeavesChannel(steps, w.channel) && SystemRun(m, steps).Up?
    ensures var r := SystemRun(m, steps).system;
      && (if |Incoming(m, w, steps)| <= CAPACITY then Listed(r, w) else Dropped(r, w))
      && Queue(r, w) == Capped(Incoming(m, w, steps))
  {
    SystemTrace(m, steps, w.prefix);
    TraceHandsOff(m.store, steps, w.channel);
    QueueFills(m.bus, Trace(m.store, steps), w);
  }

  lemma {:induction false} DroppedWaits(m: System, steps: seq<SystemStep>, w: Watcher)
    requires Dropped(m, w) && LeavesChannel(steps, w.channel) && SystemRun(m, steps).Up?
    ensures Dropped(SystemRun(m, steps).system, w) && Queue(SystemRun(m, steps).system, w) == Queue(m, w)
  {
    SystemTrace(m, steps, w.prefix);
    TraceHandsOff(m.store, steps, w.channel);
    DroppedStays(m.bus, Trace(m.store, steps), w.channel);
  }

  predicate LeavesChannels(schedule: seq<seq<SystemStep>>, c: nat) {
    forall steps :: steps in schedule ==> LeavesChannel(steps, c)
  }

  lemma {:induction false} LoopConcat(m: System, w: Watcher, key: Bytes, x: seq<seq<SystemStep>>,
                                      y: seq<seq<SystemStep>>)
    requires HasChannel(m, w)
    ensures WaitLoop(m, w, key, x + y) ==
      var mid := WaitLoop(m, w, key, x); if mid.Pending? then WaitLoop(mid.system, w, key, y) else mid
  {
    if y == [] {
      assert x + y == x;
    } else {
      assert (x + y)[..|x + y| - 1] == x + y[..|y| - 1];
      LoopConcat(m, w, key, x, y[..|y| - 1]);
    }
  }

  lemma {:induction false} DroppedRound(m: System, w: Watcher, key: Bytes, steps: seq<SystemStep>)
    requires Dropped(m, w) && LeavesChannel(steps, w.channel)
    ensures var r := LoopRound(m, w, key, steps);
      && (r.Panicked? <==> Queue(m, w) == [] && SystemRun(m, steps).Up?)
      && (r.Ended? ==> Queue(m, w) != [])
      && (r.Pending? ==> Dropped(r.system, w) && |Queue(r.system, w)| == |Queue(m, w)| - 1)
  {
    if SystemRun(m, steps).Up? { DroppedWaits(m, steps, w); }
  }

  /** A dropped candidate drains its queue, one look per event, and panics in the round after that. */
  lemma {:induction false} DroppedLoop(m: System, w: Watcher, key: Bytes, schedule: seq<seq<SystemStep>>)
    requires Dropped(m, w) && LeavesChannels(schedule, w.channel)
    ensures var r := WaitLoop(m, w, key, schedule); var q := |Queue(m, w)|;
      && (r.Pending? ==> Dropped(r.system, w) && |Queue(r.system, w)| == q - |schedule|)
      && (r.Panicked? <==>
            && q < |schedule| && WaitLoop(m, w, key, schedule[..q]).Pending?
            && SystemRun(WaitLoop(m, w, key, schedule[..q]).system, schedule[q]).Up?)
  {
    if schedule != [] {
      var n := |schedule| - 1;
      assert schedule == schedule[..n] + [schedule[n]];
      DroppedLoop(m, w, key, schedule[..n]);
      var mid := WaitLoop(m, w, key, schedule[..n]);
      var q := |Queue(m, w)|;
      if mid.Pending? { DroppedRound(mid.system, w, key, schedule[n]); }
      if q < n {
        assert schedule[..n][..q] == schedule[..q];
      }
    }
  }

  // ---- exactly when the loop panics, from the requests alone -----------------------------

  lemma RunOneIff(s: Store, rs: seq<Request>, r: Request)
    ensures Run(s, rs + [r]).Ran? <==> Run(s, rs).Ran? && Step(Run(s, rs).store, r).Done?
  {
    assert (rs + [r])[..|rs + [r]| - 1] == rs;
  }

  lemma {:induction false} SystemUpIff(m: System, steps: seq<SystemStep>)
    requires BusOk(m.bus)
    ensures SystemRun(m, steps).Up? <==> Run(m.store, Requests(steps)).Ran?
  {
    if steps != [] {
      var init, last := steps[..|steps| - 1], steps[|steps| - 1];
      SystemUpIff(m, init);
      assert steps == init + [last];
      RequestsMore(init, last);
      if SystemRun(m, init).Up? { SystemStore(m, init); }
      if last.Serve? { RunOneIff(m.store, Requests(init), last.request); }
    }
  }

  /** What the requests of the last round come to, after those of the rounds before. */
  function Round(s: Store, schedule: seq<seq<SystemStep>>): RunOutcome {
    if schedule == [] then Ran(s, [], [])
    else
      match Round(s, schedule[..|schedule| - 1])
      case Crashed => Crashed
      case Ran(t, _, _) => Run(t, Requests(schedule[|schedule| - 1]))
  }

  /** After round j the record of another key leads. */
  ghost predicate LooksOn(s: Store, name: Bytes, key: Bytes, schedule: seq<seq<SystemStep>>, j: nat)
    requires j < |schedule|
  {
    Round(s, schedule[..j + 1]).Ran? && AnotherLeads(Round(s, schedule[..j + 1]).store.kv, name, key)
  }

  lemma {:induction false} RoundWellKeyed(s: Store, schedule: seq<seq<SystemStep>>)
    requires WellKeyed(s.kv) && Round(s, schedule).Ran?
    ensures WellKeyed(Round(s, schedule).store.kv)
  {
    if schedule != [] {
      var init := schedule[..|schedule| - 1];
      RoundWellKeyed(s, init);
      RunReplays(Round(s, init).store, Requests(schedule[|schedule| - 1]));
    }
  }

  /** So the candidate, looking then, waits on. */
  lemma LooksOnIff(s: Store, name: Bytes, key: Bytes, schedule: seq<seq<SystemStep>>, j: nat)
    requires WellKeyed(s.kv) && Rangeable(name) && j < |schedule| && Round(s, schedule[..j + 1]).Ran?
    ensures LooksOn(s, name, key, schedule, j) <==> Look(Round(s, schedule[..j + 1]).store, name, key).KeepWaiting?
    ensures Justified(Round(s, schedule[..j + 1]).store, name, key, Look(Round(s, schedule[..j + 1]).store, name, key))
  {
    RoundWellKeyed(s, schedule[..j + 1]);
    LookSays(Round(s, schedule[..j + 1]).store, name, key);
    assert Justified(Round(s, schedule[..j + 1]).store, name, key, KeepWaiting) <==>
      Look(Round(s, schedule[..j + 1]).store, name, key) == KeepWaiting;
  }

  /** How many events are queued for the candidate when its turn comes in round j: those left by
      earlier rounds and those that arrived in this one. */
  function Load(m: System, w: Watcher, schedule: seq<seq<SystemStep>>, j: nat): nat
    requires w.channel < |m.bus.channels| && j < |schedule|
    decreases j, 1
  {
    var o := Round(m.store, schedule[..j + 1]);
    Backlog(m, w, schedule, j) + if o.Ran? then |Under(w.prefix, o.events)| else 0
  }

  /** How many are left after k rounds, the candidate taking one in each if there is any. */
  function Backlog(m: System, w: Watcher, schedule: seq<seq<SystemStep>>, k: nat): nat
    requires w.channel < |m.bus.channels| && k <= |schedule|
    decreases k, 0
  {
    if k == 0 then |Queue(m, w)|
    else
      var q := Load(m, w, schedule, k - 1);
      if q == 0 then 0 else q - 1
  }

  /** No earlier round than n brings more events than the channel holds. */
  predicate CalmUntil(m: System, w: Watcher, schedule: seq<seq<SystemStep>>, n: nat)
    requires w.channel < |m.bus.channels| && n <= |schedule|
  {
    forall j :: 0 <= j < n ==> Load(m, w, schedule, j) <= CAPACITY
  }

  predicate FirstOverflow(m: System, w: Watcher, schedule: seq<seq<SystemStep>>, n: nat)
    requires w.channel < |m.bus.channels|
  {
    n < |schedule| && CalmUntil(m, w, schedule, n) && Load(m, w, schedule, n) > CAPACITY
  }

  /** Through k rounds no request panics, and every look lets the candidate wait on: it looks in the rounds
      in which it finds an event, up to round n, and then, with a full queue, in each. */
  ghost predicate WaitsThrough(m: System, w: Watcher, key: Bytes, schedule: seq<seq<SystemStep>>, n: nat, k: nat)
    requires w.channel < |m.bus.channels| && k <= |schedule|
  {
    && Round(m.store, schedule[..k]).Ran?
    && forall j :: 0 <= j < k && (n <= j || Load(m, w, schedule, j) > 0) ==>
         LooksOn(m.store, w.prefix, key, schedule, j)
  }

  /** The look in round j, the first that is no reason to wait on, ends the wait. */
  ghost predicate EndsAt(m: System, w: Watcher, key: Bytes, schedule: seq<seq<SystemStep>>, n: nat, j: nat)
    requires w.channel < |m.bus.channels| && j < |schedule|
  {
    && WaitsThrough(m, w, key, schedule, n, j) && (n <= j || Load(m, w, schedule, j) > 0)
    && Round(m.store, schedule[..j + 1]).Ran? && !LooksOn(m.store, w.prefix, key, schedule, j)
  }

  /** One round of a listed candidate. */
  lemma {:induction false} ListedRound(m: System, w: Watcher, key: Bytes, steps: seq<SystemStep>)
    requires Listed(m, w) && LeavesChannel(steps, w.channel)
    ensures var r := LoopRound(m, w, key, steps); var o := Run(m.store, Requests(steps));
      var q := |Incoming(m, w, steps)|;
      && !r.Panicked?
      && (r.Pending? <==> o.Ran? && (q > 0 ==> Look(o.store, w.prefix, key).KeepWaiting?))
      && (r.Ended? ==> o.Ran? && q > 0 && r.verdict == Look(o.store, w.prefix, key))
      && (r.Pending? || r.Ended? ==> r.system.store == o.store)
      && (o.Ran? ==> r.Pending? || r.Ended?)
      && (r.Pending? && q <= CAPACITY ==>
            Listed(r.system, w) && |Queue(r.system, w)| == if q == 0 then 0 else q - 1)
      && (r.Pending? && q > CAPACITY ==> Dropped(r.system, w) && |Queue(r.system, w)| == CAPACITY - 1)
  {
    SystemUpIff(m, steps);
    if SystemRun(m, steps).Up? {
      DroppedIffOverflow(m, steps, w);
      SystemStore(m, steps);
    }
  }

  /** One round of a dropped candidate that still finds an event. */
  lemma {:induction false} DrainingRound(m: System, w: Watcher, key: Bytes, steps: seq<SystemStep>)
    requires Dropped(m, w) && LeavesChannel(steps, w.channel) && Queue(m, w) != []
    ensures var r := LoopRound(m, w, key, steps); var o := Run(m.store, Requests(steps));
      && !r.Panicked?
      && (r.Pending? <==> o.Ran? && Look(o.store, w.prefix, key).KeepWaiting?)
      && (r.Ended? ==> o.Ran? && r.verdict == Look(o.store, w.prefix, key))
      && (r.Pending? || r.Ended? ==> r.system.store == o.store)
      && (o.Ran? ==> r.Pending? || r.Ended?)
      && (r.Pending? ==> Dropped(r.system, w) && |Queue(r.system, w)| == |Queue(m, w)| - 1)
  {
    SystemUpIff(m, steps);
    if SystemRun(m, steps).Up? {
      DroppedWaits(m, steps, w);
      SystemStore(m, steps);
    }
  }

  /** Where the loop stands after k rounds. */
  ghost predicate LoopAt(m: System, w: Watcher, key: Bytes, schedule: seq<seq<SystemStep>>, n: nat, k: nat)
    requires HasChannel(m, w) && k <= |schedule|
  {
    var r := WaitLoop(m, w, key, schedule[..k]);
    && !r.Panicked?
    && (r.Pending? <==> WaitsThrough(m, w, key, schedule, n, k))
    && (r.Pending? ==> r.system.store == Round(m.store, schedule[..k]).store)
    && EndExact(m, w, key, schedule, n, k)
  }

  /** It has ended if and only if some look did, with what that look found. */
  ghost predicate EndExact(m: System, w: Watcher, key: Bytes, schedule: seq<seq<SystemStep>>, n: nat, k: nat)
    requires HasChannel(m, w) && k <= |schedule|
  {
    var r := WaitLoop(m, w, key, schedule[..k]);
    && (r.Ended? <==> exists j :: 0 <= j < k && EndsAt(m, w, key, schedule, n, j))
    && (forall j :: 0 <= j < k && EndsAt(m, w, key, schedule, n, j) ==> EndedBy(m, w, key, schedule, j, r))
  }

  /** The loop has ended with the verdict that the records after round j justify. */
  ghost predicate EndedBy(m: System, w: Watcher, key: Bytes, schedule: seq<seq<SystemStep>>, j: nat, r: Wait)
    requires j < |schedule|
  {
    && r.Ended? && Round(m.store, schedule[..j + 1]).Ran? && r.system.store == Round(m.store, schedule[..j + 1]).store
    && !r.verdict.KeepWaiting? && Justified(r.system.store, w.prefix, key, r.verdict)
  }

  lemma RoundMore(m: System, w: Watcher, key: Bytes, schedule: seq<seq<SystemStep>>, k: nat)
    requires HasChannel(m, w) && k < |schedule|
    ensures Round(m.store, schedule[..k + 1]) == (
              var o := Round(m.store, schedule[..k]);
              if o.Ran? then Run(o.store, Requests(schedule[k])) else Crashed)
    ensures WaitLoop(m, w, key, schedule[..k + 1]) == (
              var r := WaitLoop(m, w, key, schedule[..k]);
              if r.Pending? then LoopRound(r.system, w, key, schedule[k]) else r)
  {
    assert schedule[..k + 1][..k] == schedule[..k];
  }

  lemma WaitsMore(m: System, w: Watcher, key: Bytes, schedule: seq<seq<SystemStep>>, n: nat, k: nat)
    requires HasChannel(m, w) && k < |schedule|
    ensures WaitsThrough(m, w, key, schedule, n, k + 1) <==>
      && WaitsThrough(m, w, key, schedule, n, k) && Round(m.store, schedule[..k + 1]).Ran?
      && (n <= k || Load(m, w, schedule, k) > 0 ==> LooksOn(m.store, w.prefix, key, schedule, k))
  {
    RoundMore(m, w, key, schedule, k);
  }

  /** What a round does that is one of a listed candidate or finds an event. */
  ghost predicate RoundAt(m: System, w: Watcher, key: Bytes, schedule: seq<seq<SystemStep>>, n: nat, k: nat)
    requires HasChannel(m, w) && k < |schedule|
  {
    var r := WaitLoop(m, w, key, schedule[..k]);
    r.Pending? ==>
      var more := LoopRound(r.system, w, key, schedule[k]); var o := Run(r.system.store, Requests(schedule[k]));
      var looks := n <= k || Load(m, w, schedule, k) > 0;
      && !more.Panicked?
      && (more.Pending? <==> o.Ran? && (looks ==> Look(o.store, w.prefix, key).KeepWaiting?))
      && (more.Ended? ==> o.Ran? && looks && more.verdict == Look(o.store, w.prefix, key))
      && (more.Pending? || more.Ended? ==> more.system.store == o.store)
      && (o.Ran? ==> more.Pending? || more.Ended?)
  }

  lemma EndNext(m: System, w: Watcher, key: Bytes, schedule: seq<seq<SystemStep>>, n: nat, k: nat)
    requires WellKeyed(m.store.kv) && HasChannel(m, w) && k < |schedule| && LoopAt(m, w, key, schedule, n, k)
    requires RoundAt(m, w, key, schedule, n, k)
    ensures EndExact(m, w, key, schedule, n, k + 1)
  {
    RoundMore(m, w, key, schedule, k);
    if Round(m.store, schedule[..k + 1]).Ran? { LooksOnIff(m.store, w.prefix, key, schedule, k); }
    var r, r' := WaitLoop(m, w, key, schedule[..k]), WaitLoop(m, w, key, schedule[..k + 1]);
    forall j | 0 <= j < k + 1 && EndsAt(m, w, key, schedule, n, j) ensures EndedBy(m, w, key, schedule, j, r') {
      if j < k { assert EndedBy(m, w, key, schedule, j, r); }
    }
    if r'.Ended? && r.Pending? { assert EndsAt(m, w, key, schedule, n, k); }
  }

  /** One more round. */
  lemma LoopNext(m: System, w: Watcher, key: Bytes, schedule: seq<seq<SystemStep>>, n: nat, k: nat)
    requires WellKeyed(m.store.kv) && HasChannel(m, w) && k < |schedule| && LoopAt(m, w, key, schedule, n, k)
    requires RoundAt(m, w, key, schedule, n, k)
    ensures LoopAt(m, w, key, schedule, n, k + 1)
  {
    RoundMore(m, w, key, schedule, k);
    WaitsMore(m, w, key, schedule, n, k);
    if Round(m.store, schedule[..k + 1]).Ran? { LooksOnIff(m.store, w.prefix, key, schedule, k); }
    EndNext(m, w, key, schedule, n, k);
  }

  /** While no round brings too much the candidate stays listed. */
  lemma {:induction false} CalmLoop(m: System, w: Watcher, key: Bytes, schedule: seq<seq<SystemStep>>, n: nat, k: nat)
    requires WellKeyed(m.store.kv) && Listed(m, w) && LeavesChannels(schedule, w.channel)
    requires k <= n <= |schedule| && CalmUntil(m, w, schedule, n)
    ensures LoopAt(m, w, key, schedule, n, k)
    ensures var r := WaitLoop(m, w, key, schedule[..k]);
      r.Pending? ==> Listed(r.system, w) && |Queue(r.system, w)| == Backlog(m, w, schedule, k)
  {
    if k == 0 {
      assert schedule[..0] == [];
    } else {
      CalmLoop(m, w, key, schedule, n, k - 1);
      RoundMore(m, w, key, schedule, k - 1);
      assert schedule[k - 1] in schedule && Load(m, w, schedule, k - 1) <= CAPACITY;
      var r := WaitLoop(m, w, key, schedule[..k - 1]);
      if r.Pending? { ListedNext(m, w, key, schedule, k - 1, r.system); }
      LoopNext(m, w, key, schedule, n, k - 1);
    }
  }

  /** Round k of a candidate listed in t, the state after k rounds. */
  lemma {:induction false} ListedNext(m: System, w: Watcher, key: Bytes, schedule: seq<seq<SystemStep>>, k: nat,
                                      t: System)
    requires HasChannel(m, w) && Listed(t, w) && k < |schedule| && LeavesChannel(schedule[k], w.channel)
    requires Round(m.store, schedule[..k]).Ran? && t.store == Round(m.store, schedule[..k]).store
    requires |Queue(t, w)| == Backlog(m, w, schedule, k)
    ensures var r := LoopRound(t, w, key, schedule[k]); var o := Run(t.store, Requests(schedule[k]));
      var q := Load(m, w, schedule, k);
      && !r.Panicked?
      && (r.Pending? <==> o.Ran? && (q > 0 ==> Look(o.store, w.prefix, key).KeepWaiting?))
      && (r.Ended? ==> o.Ran? && q > 0 && r.verdict == Look(o.store, w.prefix, key))
      && (r.Pending? || r.Ended? ==> r.system.store == o.store)
      && (o.Ran? ==> r.Pending? || r.Ended?)
      && (r.Pending? && q <= CAPACITY ==>
            Listed(r.system, w) && |Queue(r.system, w)| == if q == 0 then 0 else q - 1)
      && (r.Pending? && q > CAPACITY ==> Dropped(r.system, w) && |Queue(r.system, w)| == CAPACITY - 1)
  {
    RoundMore(m, w, key, schedule, k);
    ListedRound(t, w, key, schedule[k]);
  }

  /** In the first round that brings too much the candidate is dropped, its queue full, ... */
  lemma {:induction false} OverflowRound(m: System, w: Watcher, key: Bytes, schedule: seq<seq<SystemStep>>, n: nat)
    requires WellKeyed(m.store.kv) && Listed(m, w) && LeavesChannels(schedule, w.channel)
    requires FirstOverflow(m, w, schedule, n)
    ensures LoopAt(m, w, key, schedule, n, n + 1)
    ensures var r := WaitLoop(m, w, key, schedule[..n + 1]);
      r.Pending? ==> Dropped(r.system, w) && |Queue(r.system, w)| == CAPACITY - 1
  {
    CalmLoop(m, w, key, schedule, n, n);
    RoundMore(m, w, key, schedule, n);
    assert schedule[n] in schedule;
    var r := WaitLoop(m, w, key, schedule[..n]);
    if r.Pending? { ListedNext(m, w, key, schedule, n, r.system); }
    LoopNext(m, w, key, schedule, n, n);
  }

  /** ... and from then on it drains its queue. */
  lemma {:induction false} OverflownLoop(m: System, w: Watcher, key: Bytes, schedule: seq<seq<SystemStep>>, n: nat,
                                         k: nat)
    requires WellKeyed(m.store.kv) && Listed(m, w) && LeavesChannels(schedule, w.channel)
    requires FirstOverflow(m, w, schedule, n)
    requires n < k <= n + CAPACITY && k <= |schedule|
    ensures LoopAt(m, w, key, schedule, n, k)
    ensures var r := WaitLoop(m, w, key, schedule[..k]);
      r.Pending? ==> Dropped(r.system, w) && |Queue(r.system, w)| == n + CAPACITY - k
  {
    if k == n + 1 {
      OverflowRound(m, w, key, schedule, n);
    } else {
      OverflownLoop(m, w, key, schedule, n, k - 1);
      RoundMore(m, w, key, schedule, k - 1);
      assert schedule[k - 1] in schedule;
      var r := WaitLoop(m, w, key, schedule[..k - 1]);
      if r.Pending? { DrainingRound(r.system, w, key, schedule[k - 1]); }
      LoopNext(m, w, key, schedule, n, k - 1);
    }
  }

  /** The round after the drained queue: the loop ends, and if the server is up it ends by panicking. */
  lemma {:induction false} DrainedLoop(m: System, w: Watcher, key: Bytes, schedule: seq<seq<SystemStep>>, n: nat)
    requires WellKeyed(m.store.kv) && Listed(m, w) && LeavesChannels(schedule, w.channel)
    requires FirstOverflow(m, w, schedule, n)
    ensures WaitLoop(m, w, key, schedule).Panicked? <==>
      && n + CAPACITY < |schedule| && WaitsThrough(m, w, key, schedule, n, n + CAPACITY)
      && Round(m.store, schedule[..n + CAPACITY + 1]).Ran?
  {
    var k := n + CAPACITY;
    if |schedule| <= k {
      OverflownLoop(m, w, key, schedule, n, |schedule|);
      assert schedule[..|schedule|] == schedule;
    } else {
      OverflownLoop(m, w, key, schedule, n, k);
      RoundMore(m, w, key, schedule, k);
      assert schedule == schedule[..k + 1] + schedule[k + 1..] && schedule[k] in schedule;
      LoopConcat(m, w, key, schedule[..k + 1], schedule[k + 1..]);
      var r := WaitLoop(m, w, key, schedule[..k]);
      if r.Pending? {
        DroppedRound(r.system, w, key, schedule[k]);
        SystemUpIff(r.system, schedule[k]);
      }
    }
  }

  lemma {:induction false} FirstOverflowOf(m: System, w: Watcher, schedule: seq<seq<SystemStep>>, k: nat)
    returns (n: nat)
    requires w.channel < |m.bus.channels| && k <= |schedule| && !CalmUntil(m, w, schedule, k)
    ensures n < k && FirstOverflow(m, w, schedule, n)
  {
    if CalmUntil(m, w, schedule, k - 1) { n := k - 1; } else { n := FirstOverflowOf(m, w, schedule, k - 1); }
  }

  /** Exactly when a candidate fails with "sender should not drop", from the requests served alone: a
      first round n leaves more events for it than its channel holds, all its looks up to round n + 3
      let it wait on, and the server is up in round n + 4. */
  lemma {:induction false} LoopPanicsIff(m: System, w: Watcher, key: Bytes, schedule: seq<seq<SystemStep>>)
    requires WellKeyed(m.store.kv) && Listed(m, w) && LeavesChannels(schedule, w.channel)
    ensures WaitLoop(m, w, key, schedule).Panicked? <==>
      exists n :: 0 <= n < |schedule| - CAPACITY && FirstOverflow(m, w, schedule, n)
        && WaitsThrough(m, w, key, schedule, n, n + CAPACITY) && Round(m.store, schedule[..n + CAPACITY + 1]).Ran?
  {
    if CalmUntil(m, w, schedule, |schedule|) {
      CalmLoop(m, w, key, schedule, |schedule|, |schedule|);
      assert schedule[..|schedule|] == schedule;
    } else {
      var n := FirstOverflowOf(m, w, schedule, |schedule|);
      DrainedLoop(m, w, key, schedule, n);
    }
    forall n | 0 <= n < |schedule| - CAPACITY && FirstOverflow(m, w, schedule, n)
        && WaitsThrough(m, w, key, schedule, n, n + CAPACITY) && Round(m.store, schedule[..n + CAPACITY + 1]).Ran?
      ensures WaitLoop(m, w, key, schedule).Panicked?
    {
      DrainedLoop(m, w, key, schedule, n);
    }
  }

  /** Exactly when the wait ends, and with what: the first look that does not find another leader ends it,
      with the verdict that the records of that moment justify.  Looks are made up to the overflow in
      the rounds that bring an event, and then in each until the queue is drained; n is the round of
      the overflow, or the number of rounds if there is none. */
  lemma {:induction false} LoopEndsIff(m: System, w: Watcher, key: Bytes, schedule: seq<seq<SystemStep>>, n: nat)
    requires WellKeyed(m.store.kv) && Listed(m, w) && LeavesChannels(schedule, w.channel)
    requires FirstOverflow(m, w, schedule, n) || (n == |schedule| && CalmUntil(m, w, schedule, n))
    ensures WaitLoop(m, w, key, schedule).Ended? <==>
      exists j :: 0 <= j < |schedule| && j < n + CAPACITY && EndsAt(m, w, key, schedule, n, j)
    ensures forall j :: 0 <= j < |schedule| && j < n + CAPACITY && EndsAt(m, w, key, schedule, n, j) ==>
      EndedBy(m, w, key, schedule, j, WaitLoop(m, w, key, schedule))
  {
    var k := if |schedule| < n + CAPACITY then |schedule| else n + CAPACITY;
    if k <= n { CalmLoop(m, w, key, schedule, n, k); } else { OverflownLoop(m, w, key, schedule, n, k); }
    if k == |schedule| {
      assert schedule[..k] == schedule;
    } else {
      RoundMore(m, w, key, schedule, k);
      assert schedule == schedule[..k + 1] + schedule[k + 1..] && schedule[k] in schedule;
      LoopConcat(m, w, key, schedule[..k + 1], schedule[k + 1..]);
      var r := WaitLoop(m, w, key, schedule[..k]);
      if r.Pending? { DroppedRound(r.system, w, key, schedule[k]); }
    }
  }

  lemma NothingQueuedBefore(m: System, w: Watcher, schedule: seq<seq<SystemStep>>, k: nat)
    requires w.channel < |m.bus.channels| && k < |schedule| && Round(m.store, schedule[..k + 1]).Ran?
    requires Load(m, w, schedule, k) == 0
    ensures Backlog(m, w, schedule, k) == 0 && Under(w.prefix, Round(m.store, schedule[..k + 1]).events) == []
  {
  }

  /** A round without an event under the name leaves the leader as it was. */
  lemma {:induction false} QuietRound(s: Store, rs: seq<Request>, name: Bytes, key: Bytes)
    requires WellKeyed(s.kv) && Rangeable(name) && Run(s, rs).Ran? && Under(name, Run(s, rs).events) == []
    ensures AnotherLeads(s.kv, name, key) <==> AnotherLeads(Run(s, rs).store.kv, name, key)
  {
    var o := Run(s, rs);
    RunReplays(s, rs);
    if Leader(s.kv, name) != Leader(o.store.kv, name) {
      LeaderChangeIsAnnounced(s, rs, name);
      var e :| e in o.events && name <= e.kv.key;
      InUnder(name, o.events, e);
    }
    SameLeader(s.kv, o.store.kv, name, key);
  }

  /** Nobody waits in vain: a listed candidate that began to wait while another led, and still waits with
      nothing queued, is waiting while another leads. */
  lemma {:induction false} NobodyWaitsInVain(m: System, w: Watcher, key: Bytes, schedule: seq<seq<SystemStep>>)
    requires WellKeyed(m.store.kv) && Listed(m, w) && LeavesChannels(schedule, w.channel)
    requires Queue(m, w) == [] && AnotherLeads(m.store.kv, w.prefix, key)
    requires WaitLoop(m, w, key, schedule).Pending?
    requires var t := WaitLoop(m, w, key, schedule).system; w in t.bus.list && Queue(t, w) == []
    ensures AnotherLeads(WaitLoop(m, w, key, schedule).system.store.kv, w.prefix, key)
  {
    var k := |schedule|;
    assert schedule[..k] == schedule;
    if !CalmUntil(m, w, schedule, k) {
      var n := FirstOverflowOf(m, w, schedule, k);
      if k <= n + CAPACITY {
        OverflownLoop(m, w, key, schedule, n, k);
      } else {
        LoopEndsAfterOverflow(m, w, key, schedule, n);
      }
    } else {
      CalmLoop(m, w, key, schedule, k, k);
      CalmCandidateWaitsRightly(m, w, key, schedule, k);
    }
  }

  lemma {:induction false} LoopEndsAfterOverflow(m: System, w: Watcher, key: Bytes, schedule: seq<seq<SystemStep>>,
                                                 n: nat)
    requires WellKeyed(m.store.kv) && Listed(m, w) && LeavesChannels(schedule, w.channel)
    requires FirstOverflow(m, w, schedule, n) && n + CAPACITY < |schedule|
    ensures !WaitLoop(m, w, key, schedule).Pending?
  {
    var k := n + CAPACITY;
    OverflownLoop(m, w, key, schedule, n, k);
    RoundMore(m, w, key, schedule, k);
    assert schedule == schedule[..k + 1] + schedule[k + 1..] && schedule[k] in schedule;
    LoopConcat(m, w, key, schedule[..k + 1], schedule[k + 1..]);
    var r := WaitLoop(m, w, key, schedule[..k]);
    if r.Pending? { DroppedRound(r.system, w, key, schedule[k]); }
  }

  lemma {:induction false} CalmCandidateWaitsRightly(m: System, w: Watcher, key: Bytes,
                                                     schedule: seq<seq<SystemStep>>, k: nat)
    requires WellKeyed(m.store.kv) && HasChannel(m, w) && k <= |schedule|
    requires Queue(m, w) == [] && AnotherLeads(m.store.kv, w.prefix, key)
    requires WaitsThrough(m, w, key, schedule, |schedule|, k) && Backlog(m, w, schedule, k) == 0
    ensures AnotherLeads(Round(m.store, schedule[..k]).store.kv, w.prefix, key)
  {
    if k == 0 {
      assert schedule[..0] == [];
    } else {
      RoundMore(m, w, key, schedule, k - 1);
      WaitsMore(m, w, key, schedule, |schedule|, k - 1);
      if Load(m, w, schedule, k - 1) == 0 {
        NothingQueuedBefore(m, w, schedule, k - 1);
        CalmCandidateWaitsRightly(m, w, key, schedule, k - 1);
        RoundWellKeyed(m.store, schedule[..k - 1]);
        QuietRound(Round(m.store, schedule[..k - 1]).store, Requests(schedule[k - 1]), w.prefix, key);
      } else {
        assert LooksOn(m.store, w.prefix, key, schedule, k - 1);
      }
    }
  }

  /** A candidate told to wait is listed, under its election's name, with an empty channel of its own. */
  lemma WaitingIsListed(m: System, name: Bytes, value: Bytes, lease: LeaseId)
    requires BusOk(m.bus) && CampaignStep(m.store, name, value, lease).Done?
    requires CampaignStep(m.store, name, value, lease).reply.Waiting?
    ensures var r := SystemNext(m, Serve(CampaignRequest(name, value, lease)));
      r.Up? && var w := Watcher(name, |m.bus.channels|); Listed(r.system, w) && Queue(r.system, w) == []
  {
    var o := CampaignStep(m.store, name, value, lease);
    BusRunConcat(m.bus, Publications(o.events), [Subscribed(name)]);
    PublicationsKeep(m.bus, o.events);
    var b := BusRun(m.bus, Publications(o.events));
    assert [Subscribed(name)][..0] == [];
    assert BusRun(b, [Subscribed(name)]) == Subscribe(b, name);
    assert Watcher(name, |b.channels|) == Subscribe(b, name).list[|b.list|];
  }

  lemma {:induction false} PublicationsKeep(b: Bus, events: seq<Event>)
    requires BusOk(b)
    ensures |BusRun(b, Publications(events)).channels| == |b.channels|
  {
    if events != [] {
      assert Publications(events)[..|events| - 1] == Publications(events[..|events| - 1]);
      PublicationsKeep(b, events[..|events| - 1]);
    }
  }
}
