/** The event bus: watchers with bounded channels.  A watcher sees a gap-free prefix of the
    matching events, and a waiting candidate cannot miss a change of leader. */
module EtcdWatch {
  import opened ByteStrings
  import opened EtcdStore
  import opened EtcdReplay
  import opened EtcdLeader

  const CAPACITY := 4

  /** One bounded channel: what its receiver has taken, what is still queued, and whether the
      receiver still exists. */
  datatype Channel = Channel(received: seq<Event>, queue: seq<Event>, open: bool) {
    function Sent(): seq<Event> { received + queue }
    predicate CanSend() { open && |queue| < CAPACITY }
  }

  datatype Watcher = Watcher(prefix: Bytes, channel: nat)

  datatype Bus = Bus(list: seq<Watcher>, channels: seq<Channel>)

  const EmptyBus := Bus([], [])

  predicate Matches(prefix: Bytes, e: Event) {
    prefix <= e.kv.key
  }

  /** Watchers own distinct existing channels. */
  predicate BusOk(b: Bus) {
    && (forall w :: w in b.list ==> w.channel < |b.channels|)
    && (forall i, j :: 0 <= i < j < |b.list| ==> b.list[i].channel != b.list[j].channel)
  }

  function Subscribe(b: Bus, prefix: Bytes): Bus {
    Bus(b.list + [Watcher(prefix, |b.channels|)], b.channels + [Channel([], [], true)])
  }

  /** Offers the event to the watchers in order; a watcher whose bounded send fails is dropped. */
  function Offer(list: seq<Watcher>, channels: seq<Channel>, e: Event): Bus
    requires forall w :: w in list ==> w.channel < |channels|
    ensures |Offer(list, channels, e).channels| == |channels|
  {
    if list == [] then Bus([], channels)
    else
      var n := |list| - 1;
      assert list[n] in list;
      var b := Offer(list[..n], channels, e);
      var w := list[n];
      if !Matches(w.prefix, e) then Bus(b.list + [w], b.channels)
      else
        var c := b.channels[w.channel];
        if c.CanSend() then Bus(b.list + [w], b.channels[w.channel := c.(queue := c.queue + [e])])
        else b
  }

  function Publish(b: Bus, e: Event): Bus
    requires BusOk(b)
  {
    Offer(b.list, b.channels, e)
  }

  lemma BusInit(list: seq<Watcher>, channels: seq<Channel>)
    requires list != [] && BusOk(Bus(list, channels))
    ensures var n := |list| - 1;
      && BusOk(Bus(list[..n], channels)) && list[n].channel < |channels|
      && (forall w :: w in list[..n] ==> w in list && w.channel != list[n].channel)
      && (forall w :: w in list ==> w in list[..n] || w == list[n])
  {
    assert list[|list| - 1] in list;
    assert list == list[..|list| - 1] + [list[|list| - 1]];
  }

  /** Dropping watchers keeps the rest distinct. */
  lemma {:induction false} OfferOk(list: seq<Watcher>, channels: seq<Channel>, e: Event)
    requires BusOk(Bus(list, channels))
    ensures BusOk(Offer(list, channels, e))
    ensures forall w :: w in Offer(list, channels, e).list ==> w in list
  {
    if list != [] {
      BusInit(list, channels);
      OfferOk(list[..|list| - 1], channels, e);
    }
  }

  /** A channel that no watcher owns is left alone. */
  lemma {:induction false} OfferOther(list: seq<Watcher>, channels: seq<Channel>, e: Event, c: nat)
    requires BusOk(Bus(list, channels)) && c < |channels|
    requires forall w :: w in list ==> w.channel != c
    ensures Offer(list, channels, e).channels[c] == channels[c]
  {
    if list != [] {
      BusInit(list, channels);
      OfferOther(list[..|list| - 1], channels, e, c);
    }
  }

  /** A watcher stays if and only if the event does not match or its bounded send succeeds, and
      its channel gains the event exactly when it matches and fits. */
  lemma {:induction false} OfferFate(list: seq<Watcher>, channels: seq<Channel>, e: Event, w: Watcher)
    requires BusOk(Bus(list, channels)) && w in list
    ensures var b := Offer(list, channels, e); var c := channels[w.channel];
      && (w in b.list <==> (Matches(w.prefix, e) ==> c.CanSend()))
      && b.channels[w.channel] == (if Matches(w.prefix, e) && c.CanSend() then c.(queue := c.queue + [e]) else c)
  {
    var n := |list| - 1;
    BusInit(list, channels);
    OfferOk(list[..n], channels, e);
    if w == list[n] {
      OfferOther(list[..n], channels, e, w.channel);
      assert w !in list[..n];
    } else {
      OfferFate(list[..n], channels, e, w);
    }
  }

  // ---- runs of the bus -------------------------------------------------------------------

  datatype BusStep =
    | Subscribed(prefix: Bytes)
    | Published(event: Event)
    | Taken(channel: nat)   // the receiver takes the head of its queue
    | Closed(channel: nat)  // the receiver goes away

  function BusNext(b: Bus, step: BusStep): Bus
    requires BusOk(b)
  {
    match step
    case Subscribed(prefix) => Subscribe(b, prefix)
    case Published(e) => Publish(b, e)
    case Taken(c) =>
      if c < |b.channels| && b.channels[c].queue != [] then
        var ch := b.channels[c];
        b.(channels := b.channels[c := ch.(received := ch.received + [ch.queue[0]], queue := ch.queue[1..])])
      else b
    case Closed(c) =>
      if c < |b.channels| then b.(channels := b.channels[c := b.channels[c].(open := false)]) else b
  }

  lemma BusNextOk(b: Bus, step: BusStep)
    requires BusOk(b)
    ensures BusOk(BusNext(b, step)) && |b.channels| <= |BusNext(b, step).channels|
  {
    if step.Published? { OfferOk(b.list, b.channels, step.event); }
  }

  ghost function BusRun(b: Bus, steps: seq<BusStep>): (r: Bus)
    requires BusOk(b)
    ensures BusOk(r) && |b.channels| <= |r.channels|
  {
    if steps == [] then b
    else
      var m := BusRun(b, steps[..|steps| - 1]);
      BusNextOk(m, steps[|steps| - 1]);
      BusNext(m, steps[|steps| - 1])
  }

  /** The published events under a prefix, in order. */
  function Matching(prefix: Bytes, steps: seq<BusStep>): seq<Event> {
    if steps == [] then []
    else
      var last := steps[|steps| - 1];
      Matching(prefix, steps[..|steps| - 1]) +
      if last.Published? && Matches(prefix, last.event) then [last.event] else []
  }

  /** The channel never belonged to, or no longer belongs to, a watcher. */
  predicate Unwatched(b: Bus, c: nat) {
    forall w :: w in b.list ==> w.channel != c
  }

  /** Once off the list, always off the list, and nothing more is ever sent. */
  lemma UnwatchedNext(b: Bus, step: BusStep, c: nat)
    requires BusOk(b) && c < |b.channels| && Unwatched(b, c)
    ensures Unwatched(BusNext(b, step), c)
    ensures BusNext(b, step).channels[c].Sent() == b.channels[c].Sent()
  {
    match step
    case Published(e) => OfferOk(b.list, b.channels, e); OfferOther(b.list, b.channels, e, c);
    case Taken(d) => TakeKeepsSent(b.channels[c]);
    case _ =>
  }

  lemma TakeKeepsSent(ch: Channel)
    ensures ch.queue != [] ==> (ch.received + [ch.queue[0]]) + ch.queue[1..] == ch.Sent()
  {
  }

  lemma WatchedNext(b: Bus, step: BusStep, w: Watcher)
    requires BusOk(b) && w in b.list
    ensures var b' := BusNext(b, step); var before := b.channels[w.channel].Sent();
      var after := b'.channels[w.channel].Sent();
      if step.Published? && Matches(w.prefix, step.event) then
        (w in b'.list && after == before + [step.event]) || (Unwatched(b', w.channel) && after == before)
      else w in b'.list && after == before
  {
    match step
    case Published(e) =>
      OfferOk(b.list, b.channels, e);
      OfferFate(b.list, b.channels, e, w);
      var b' := BusNext(b, step);
      if w !in b'.list { StillUnique(b, b', w); }
    case Taken(d) => TakeKeepsSent(b.channels[w.channel]);
    case _ =>
  }

  lemma StillUnique(b: Bus, b': Bus, w: Watcher)
    requires BusOk(b) && w in b.list && w !in b'.list
    requires forall x :: x in b'.list ==> x in b.list
    ensures Unwatched(b', w.channel)
  {
    var i :| 0 <= i < |b.list| && b.list[i] == w;
    forall x | x in b'.list ensures x.channel != w.channel {
      var j :| 0 <= j < |b.list| && b.list[j] == x;
    }
  }

  /** No gaps: whatever happens on the bus, a watcher was sent a prefix of the matching events
      published since, all of them if it is still listed, and a dropped watcher never returns. */
  lemma {:induction false} NoGaps(b: Bus, steps: seq<BusStep>, w: Watcher)
    requires BusOk(b) && w in b.list
    ensures var r := BusRun(b, steps); var before := b.channels[w.channel].Sent();
      var after := r.channels[w.channel].Sent();
      && before <= after
      && after[|before|..] <= Matching(w.prefix, steps)
      && (w in r.list ==> after[|before|..] == Matching(w.prefix, steps))
      && (w in r.list || Unwatched(r, w.channel))
  {
    var before := b.channels[w.channel].Sent();
    if steps != [] {
      var n := |steps| - 1;
      NoGaps(b, steps[..n], w);
      var m := BusRun(b, steps[..n]);
      var mid := m.channels[w.channel].Sent();
      if w in m.list {
        WatchedNext(m, steps[n], w);
        assert mid == before + mid[|before|..];
        assert steps[n].Published? ==> (mid + [steps[n].event])[|before|..] == mid[|before|..] + [steps[n].event];
      } else {
        UnwatchedNext(m, steps[n], w.channel);
      }
    }
  }

  /** The receiver has gone; its watcher may still be listed. */
  ghost predicate Gone(b: Bus, w: Watcher) {
    BusOk(b) && w.channel < |b.channels| && !b.channels[w.channel].open && (w in b.list || Unwatched(b, w.channel))
  }

  lemma GoneNext(b: Bus, step: BusStep, w: Watcher)
    requires Gone(b, w)
    ensures var b' := BusNext(b, step);
      && Gone(b', w) && b'.channels[w.channel].Sent() == b.channels[w.channel].Sent()
      && (w in b'.list <==> w in b.list && !(step.Published? && Matches(w.prefix, step.event)))
  {
    BusNextOk(b, step);
    if w in b.list { WatchedNext(b, step, w); } else { UnwatchedNext(b, step, w.channel); }
    if step.Published? {
      if w in b.list {
        OfferFate(b.list, b.channels, step.event, w);
      } else {
        OfferOther(b.list, b.channels, step.event, w.channel);
      }
    }
  }

  /** A watcher whose receiver has gone is sent nothing more, and is dropped by the next matching event. */
  lemma {:induction false} GoneIsDropped(b: Bus, steps: seq<BusStep>, w: Watcher)
    requires BusOk(b) && w in b.list
    ensures BusOk(BusNext(b, Closed(w.channel)))
    ensures var r := BusRun(BusNext(b, Closed(w.channel)), steps);
      && Gone(r, w) && r.channels[w.channel].Sent() == b.channels[w.channel].Sent()
      && (w in r.list <==> Matching(w.prefix, steps) == [])
  {
    BusNextOk(b, Closed(w.channel));
    if steps != [] {
      var n := |steps| - 1;
      GoneIsDropped(b, steps[..n], w);
      GoneNext(BusRun(BusNext(b, Closed(w.channel)), steps[..n]), steps[n], w);
    }
  }

  // ---- server and bus together -----------------------------------------------------------

  datatype System = System(store: Store, bus: Bus)

  datatype SystemStep =
    | Serve(request: Request)
    | Receive(channel: nat)
    | HangUp(channel: nat)

  datatype SystemOutcome = Up(system: System) | Down

  function Publications(events: seq<Event>): seq<BusStep> {
    seq(|events|, i requires 0 <= i < |events| => Published(events[i]))
  }

  /** A request publishes its events; a campaign that must wait and an observe then subscribe. */
  function BusSteps(r: Request, reply: Reply, events: seq<Event>): seq<BusStep> {
    Publications(events) +
    (if (r.CampaignRequest? && reply.Waiting?) || r.ObserveRequest? then [Subscribed(r.name)] else [])
  }

  ghost function SystemNext(m: System, step: SystemStep): (r: SystemOutcome)
    requires BusOk(m.bus)
    ensures r.Up? ==> BusOk(r.system.bus) && |m.bus.channels| <= |r.system.bus.channels|
  {
    match step
    case Serve(r) =>
      var o := Step(m.store, r);
      if o.Panic? then Down else Up(System(o.store, BusRun(m.bus, BusSteps(r, o.reply, o.events))))
    case Receive(c) => BusNextOk(m.bus, Taken(c)); Up(m.(bus := BusNext(m.bus, Taken(c))))
    case HangUp(c) => BusNextOk(m.bus, Closed(c)); Up(m.(bus := BusNext(m.bus, Closed(c))))
  }

  ghost function SystemRun(m: System, steps: seq<SystemStep>): (r: SystemOutcome)
    requires BusOk(m.bus)
    ensures r.Up? ==> BusOk(r.system.bus) && |m.bus.channels| <= |r.system.bus.channels|
  {
    if steps == [] then Up(m)
    else
      var mid := SystemRun(m, steps[..|steps| - 1]);
      if mid.Down? then Down else SystemNext(mid.system, steps[|steps| - 1])
  }

  lemma {:induction false} BusRunConcat(b: Bus, x: seq<BusStep>, y: seq<BusStep>)
    requires BusOk(b)
    ensures BusRun(b, x + y) == BusRun(BusRun(b, x), y)
  {
    if y == [] {
      assert x + y == x;
    } else {
      assert (x + y)[..|x + y| - 1] == x + y[..|y| - 1];
      BusRunConcat(b, x, y[..|y| - 1]);
    }
  }

  // ---- a run of the system as a run of the store and a run of the bus ----------------------------

  /** The requests served in a run. */
  function Requests(steps: seq<SystemStep>): seq<Request> {
    if steps == [] then []
    else
      var last := steps[|steps| - 1];
      Requests(steps[..|steps| - 1]) + if last.Serve? then [last.request] else []
  }

  /** What one step does to the bus. */
  function StepTrace(s: Store, step: SystemStep): seq<BusStep> {
    match step
    case Serve(r) =>
      var o := Step(s, r);
      if o.Panic? then [] else BusSteps(r, o.reply, o.events)
    case Receive(c) => [Taken(c)]
    case HangUp(c) => [Closed(c)]
  }

  /** What a run does to the bus. */
  function Trace(s: Store, steps: seq<SystemStep>): seq<BusStep> {
    if steps == [] then []
    else
      var init := steps[..|steps| - 1];
      var o := Run(s, Requests(init));
      Trace(s, init) + if o.Crashed? then [] else StepTrace(o.store, steps[|steps| - 1])
  }

  /** The events under a prefix, in order. */
  function Under(prefix: Bytes, events: seq<Event>): seq<Event> {
    if events == [] then []
    else
      var last := events[|events| - 1];
      Under(prefix, events[..|events| - 1]) + if Matches(prefix, last) then [last] else []
  }

  lemma {:induction false} UnderConcat(prefix: Bytes, x: seq<Event>, y: seq<Event>)
    ensures Under(prefix, x + y) == Under(prefix, x) + Under(prefix, y)
  {
    if y == [] {
      assert x + y == x;
    } else {
      assert (x + y)[..|x + y| - 1] == x + y[..|y| - 1];
      UnderConcat(prefix, x, y[..|y| - 1]);
    }
  }

  lemma {:induction false} InUnder(prefix: Bytes, events: seq<Event>, e: Event)
    ensures e in Under(prefix, events) <==> e in events && Matches(prefix, e)
  {
    if events != [] {
      InUnder(prefix, events[..|events| - 1], e);
      assert events == events[..|events| - 1] + [events[|events| - 1]];
    }
  }

  lemma {:induction false} MatchingConcat(prefix: Bytes, x: seq<BusStep>, y: seq<BusStep>)
    ensures Matching(prefix, x + y) == Matching(prefix, x) + Matching(prefix, y)
  {
    if y == [] {
      assert x + y == x;
    } else {
      assert (x + y)[..|x + y| - 1] == x + y[..|y| - 1];
      MatchingConcat(prefix, x, y[..|y| - 1]);
    }
  }

  lemma {:induction false} MatchingPublications(prefix: Bytes, events: seq<Event>)
    ensures Matching(prefix, Publications(events)) == Under(prefix, events)
  {
    if events != [] {
      assert Publications(events)[..|events| - 1] == Publications(events[..|events| - 1]);
      MatchingPublications(prefix, events[..|events| - 1]);
    }
  }

  lemma {:induction false} StepMatching(s: Store, step: SystemStep, prefix: Bytes)
    ensures Matching(prefix, StepTrace(s, step)) ==
      if step.Serve? && Step(s, step.request).Done? then Under(prefix, Step(s, step.request).events) else []
  {
    if step.Serve? && Step(s, step.request).Done? {
      var o := Step(s, step.request);
      MatchingPublications(prefix, o.events);
      assert BusSteps(step.request, o.reply, o.events) == Publications(o.events) ||
             BusSteps(step.request, o.reply, o.events)[..|o.events|] == Publications(o.events);
    } else if !step.Serve? {
      assert StepTrace(s, step)[..0] == [];
    }
  }

  lemma StepTraceExact(m: System, step: SystemStep)
    requires BusOk(m.bus) && SystemNext(m, step).Up?
    ensures SystemNext(m, step).system.bus == BusRun(m.bus, StepTrace(m.store, step))
  {
    if !step.Serve? { assert StepTrace(m.store, step)[..0] == []; }
  }

  lemma RequestsMore(steps: seq<SystemStep>, step: SystemStep)
    ensures Requests(steps + [step]) == if step.Serve? then Requests(steps) + [step.request] else Requests(steps)
  {
    assert (steps + [step])[..|steps|] == steps;
  }

  lemma {:induction false} SystemStore(m: System, steps: seq<SystemStep>)
    requires BusOk(m.bus) && SystemRun(m, steps).Up?
    ensures Run(m.store, Requests(steps)).Ran?
    ensures SystemRun(m, steps).system.store == Run(m.store, Requests(steps)).store
  {
    if steps != [] {
      var init, last := steps[..|steps| - 1], steps[|steps| - 1];
      SystemStore(m, init);
      RequestsMore(init, last);
      assert steps == init + [last];
      if last.Serve? { RunMore(m.store, Requests(init), last.request); }
    }
  }

  lemma {:induction false} SystemBus(m: System, steps: seq<SystemStep>)
    requires BusOk(m.bus) && SystemRun(m, steps).Up?
    ensures SystemRun(m, steps).system.bus == BusRun(m.bus, Trace(m.store, steps))
  {
    if steps != [] {
      var init, last := steps[..|steps| - 1], steps[|steps| - 1];
      SystemBus(m, init);
      SystemStore(m, init);
      var mid := SystemRun(m, init).system;
      StepTraceExact(mid, last);
      BusRunConcat(m.bus, Trace(m.store, init), StepTrace(mid.store, last));
    }
  }

  lemma {:induction false} MatchingMore(s: Store, rs: seq<Request>, trace: seq<BusStep>, r: Request, prefix: Bytes)
    requires Run(s, rs).Ran? && Step(Run(s, rs).store, r).Done?
    requires Matching(prefix, trace) == Under(prefix, Run(s, rs).events)
    ensures Run(s, rs + [r]).Ran?
    ensures Matching(prefix, trace + StepTrace(Run(s, rs).store, Serve(r))) == Under(prefix, Run(s, rs + [r]).events)
  {
    var t := Run(s, rs).store;
    MatchingConcat(prefix, trace, StepTrace(t, Serve(r)));
    StepMatching(t, Serve(r), prefix);
    RunMore(s, rs, r);
    UnderConcat(prefix, Run(s, rs).events, Step(t, r).events);
  }

  lemma {:induction false} TraceMatching(s: Store, steps: seq<SystemStep>, prefix: Bytes)
    requires Run(s, Requests(steps)).Ran?
    ensures Matching(prefix, Trace(s, steps)) == Under(prefix, Run(s, Requests(steps)).events)
  {
    if steps != [] {
      var init, last := steps[..|steps| - 1], steps[|steps| - 1];
      RequestsMore(init, last);
      assert steps == init + [last];
      if last.Serve? {
        RanBefore(s, Requests(init), last.request);
        TraceMatching(s, init, prefix);
        MatchingMore(s, Requests(init), Trace(s, init), last.request, prefix);
      } else {
        TraceMatching(s, init, prefix);
        MatchingConcat(prefix, Trace(s, init), StepTrace(Run(s, Requests(init)).store, last));
        StepMatching(Run(s, Requests(init)).store, last, prefix);
      }
    }
  }

  lemma RanBefore(s: Store, rs: seq<Request>, r: Request)
    requires Run(s, rs + [r]).Ran?
    ensures Run(s, rs).Ran? && Step(Run(s, rs).store, r).Done?
  {
    assert (rs + [r])[..|rs + [r]| - 1] == rs;
  }

  /** A run of the system is the run of its requests on the store and the run of its trace on the
      bus, and what the trace publishes under a prefix is what the store's run emits under it. */
  lemma {:induction false} SystemTrace(m: System, steps: seq<SystemStep>, prefix: Bytes)
    requires BusOk(m.bus) && SystemRun(m, steps).Up?
    ensures Run(m.store, Requests(steps)).Ran?
    ensures SystemRun(m, steps).system.store == Run(m.store, Requests(steps)).store
    ensures SystemRun(m, steps).system.bus == BusRun(m.bus, Trace(m.store, steps))
    ensures Matching(prefix, Trace(m.store, steps)) == Under(prefix, Run(m.store, Requests(steps)).events)
  {
    SystemStore(m, steps);
    SystemBus(m, steps);
    TraceMatching(m.store, steps, prefix);
  }

  /** No lost wake-up: over any run of the system, a watcher of a name that is still listed and
      was sent nothing in between finds the very leader record it would have found before. */
  lemma {:induction false} NoLostWakeup(m: System, steps: seq<SystemStep>, w: Watcher)
    requires BusOk(m.bus) && WellKeyed(m.store.kv) && w in m.bus.list && Rangeable(w.prefix)
    requires SystemRun(m, steps).Up?
    requires var r := SystemRun(m, steps).system;
      w in r.bus.list && r.bus.channels[w.channel].Sent() == m.bus.channels[w.channel].Sent()
    ensures Leader(SystemRun(m, steps).system.store.kv, w.prefix) == Leader(m.store.kv, w.prefix)
  {
    var rs := Requests(steps);
    SystemTrace(m, steps, w.prefix);
    NoGaps(m.bus, Trace(m.store, steps), w);
    assert Under(w.prefix, Run(m.store, rs).events) == [];
    if Leader(SystemRun(m, steps).system.store.kv, w.prefix) != Leader(m.store.kv, w.prefix) {
      LeaderChangeIsAnnounced(m.store, rs, w.prefix);
      var e :| e in Run(m.store, rs).events && w.prefix <= e.kv.key;
      InUnder(w.prefix, Run(m.store, rs).events, e);
    }
  }
}
