/** The server in its own form: an object whose requests update its fields in place, proved
    against the pure state machine of `EtcdStore` and the bus of `EtcdWatch`. */
module EtcdService {
  import opened ByteStrings
  import opened EtcdStore
  import opened EtcdWatch
  import opened EtcdLeases
  import EtcdTxn

  class EventBus {
    var list: seq<Watcher>
    var channels: seq<Channel>

    ghost predicate Valid()
      reads this
    {
      BusOk(Bus(list, channels))
    }

    ghost function View(): Bus
      reads this
    {
      Bus(list, channels)
    }

    constructor ()
      ensures Valid() && View() == EmptyBus
    {
      list, channels := [], [];
    }

    method Subscribe(prefix: Bytes) returns (channel: nat)
      requires Valid()
      modifies this
      ensures Valid() && View() == BusNext(old(View()), Subscribed(prefix))
      ensures channel == |old(channels)|
    {
      channel := |channels|;
      list := list + [Watcher(prefix, channel)];
      channels := channels + [Channel([], [], true)];
    }

    /** Keeps the watchers whose pattern does not match or whose bounded send succeeds. */
    method Publish(e: Event)
      requires Valid()
      modifies this
      ensures Valid() && View() == BusNext(old(View()), Published(e))
    {
      var kept: seq<Watcher> := [];
      var i := 0;
      while i < |list|
        invariant 0 <= i <= |list| && list == old(list)
        invariant Bus(kept, channels) == Offer(list[..i], old(channels), e)
      {
        var w := list[i];
        assert w in list;
        assert list[..i + 1][..i] == list[..i];
        if !Matches(w.prefix, e) {
          kept := kept + [w];
        } else {
          var c := channels[w.channel];
          if c.CanSend() {
            channels := channels[w.channel := c.(queue := c.queue + [e])];
            kept := kept + [w];
          }
        }
        i := i + 1;
      }
      assert list[..i] == old(list);
      list := kept;
      BusNextOk(old(View()), Published(e));
    }
  }

  // ---- the specification of a request with its publications ------------------------------

  /** The system after a step that publishes its events and subscribes nobody. */
  ghost function After(m: System, o: Outcome): System
    requires BusOk(m.bus) && o.Done?
  {
    System(o.store, BusRun(m.bus, Publications(o.events)))
  }

  lemma PublishNone(b: Bus)
    requires BusOk(b)
    ensures BusRun(b, Publications([])) == b
  {
  }

  lemma PublishOne(b: Bus, e: Event)
    requires BusOk(b)
    ensures BusRun(b, Publications([e])) == BusNext(b, Published(e))
  {
    assert Publications([e])[..0] == [];
  }

  lemma {:induction false} PublishConcat(b: Bus, x: seq<Event>, y: seq<Event>)
    requires BusOk(b)
    ensures BusRun(b, Publications(x + y)) == BusRun(BusRun(b, Publications(x)), Publications(y))
  {
    assert Publications(x + y) == Publications(x) + Publications(y);
    BusRunConcat(b, Publications(x), Publications(y));
  }

  lemma {:induction false} PublishMore(b: Bus, x: seq<Event>, e: Event)
    requires BusOk(b)
    ensures BusRun(b, Publications(x + [e])) == BusNext(BusRun(b, Publications(x)), Published(e))
  {
    PublishConcat(b, x, [e]);
    PublishOne(BusRun(b, Publications(x)), e);
  }

  /** The request took the system from m to t and was answered with the reply, as the system's
      transition says. */
  ghost predicate Served(m: System, r: Request, t: System, reply: Reply)
    requires BusOk(m.bus)
  {
    SystemNext(m, Serve(r)) == Up(t) && reply == Step(m.store, r).reply
  }

  /** Requests that subscribe nobody are served exactly as `After` says. */
  lemma AfterServes(m: System, r: Request)
    requires BusOk(m.bus) && Step(m.store, r).Done? && !r.CampaignRequest? && !r.ObserveRequest?
    ensures SystemNext(m, Serve(r)) == Up(After(m, Step(m.store, r)))
  {
    var o := Step(m.store, r);
    assert BusSteps(r, o.reply, o.events) == Publications(o.events);
  }

  /** In particular those that publish at most one event. */
  lemma OneEventServes(m: System, r: Request)
    requires BusOk(m.bus) && Step(m.store, r).Done? && !r.CampaignRequest? && !r.ObserveRequest?
    requires |Step(m.store, r).events| <= 1
    ensures var o := Step(m.store, r);
      Served(m, r, System(o.store, if o.events == [] then m.bus else BusNext(m.bus, Published(o.events[0]))), o.reply)
  {
    var o := Step(m.store, r);
    AfterServes(m, r);
    if o.events == [] {
      PublishNone(m.bus);
    } else {
      assert o.events == [o.events[0]];
      PublishOne(m.bus, o.events[0]);
    }
  }

  lemma PutServes(m: System, key: Bytes, value: Bytes, lease: LeaseId, wantPrev: bool)
    requires BusOk(m.bus) && PutStep(m.store, key, value, lease, wantPrev).Done?
    ensures var r := PutRequest(key, value, lease, wantPrev); var prev := Lookup(m.store.kv, key);
      var leases := PutStep(m.store, key, value, lease, wantPrev).store.leases;
      if lease != 0 && lease !in m.store.leases then leases == m.store.leases && Served(m, r, m, Failed(LeaseNotFound))
      else
        var revision := m.store.revision + 1;
        var record := KeyValue(key, value, lease, if prev.Some? then prev.value.created else revision, revision);
        Served(m, r, System(Store(revision, m.store.kv[key := record], leases),
                            BusNext(m.bus, Published(Event.Put(record)))),
               PutReply(revision, if wantPrev then prev else None))
  {
    OneEventServes(m, PutRequest(key, value, lease, wantPrev));
  }

  lemma ProclaimServes(m: System, key: Bytes, value: Bytes)
    requires BusOk(m.bus)
    ensures var r := ProclaimRequest(key, value); var revision := m.store.revision + 1;
      if key !in m.store.kv then Served(m, r, m, Failed(SessionExpired))
      else
        var record := m.store.kv[key].(value := value, modified := revision);
        Served(m, r, System(Store(revision, m.store.kv[key := record], m.store.leases),
                            BusNext(m.bus, Published(Event.Put(record)))), ProclaimReply(revision))
  {
    OneEventServes(m, ProclaimRequest(key, value));
  }

  lemma ObserveServes(m: System, name: Bytes)
    requires BusOk(m.bus) && Rangeable(name)
    ensures SystemNext(m, Serve(ObserveRequest(name))) == Up(System(m.store, BusNext(m.bus, Subscribed(name))))
  {
    assert BusSteps(ObserveRequest(name), LeaderStep(m.store, name).reply, []) == [Subscribed(name)];
    assert [Subscribed(name)][..0] == [];
    assert BusRun(m.bus, [Subscribed(name)][..0]) == m.bus;
  }

  /** The candidate's key is missing or holds another value. */
  predicate MustBid(s: Store, key: Bytes, value: Bytes) {
    key !in s.kv || s.kv[key].value != value
  }

  /** The system after a campaign's bid, before it asks who leads. */
  ghost function Bid(m: System, name: Bytes, value: Bytes, lease: LeaseId): (t: System)
    requires BusOk(m.bus)
    ensures BusOk(t.bus)
  {
    var s, key := m.store, CampaignKey(name, lease);
    if !MustBid(s, key, value) then m
    else if lease !in s.leases then m.(store := s.(revision := s.revision + 1))
    else
      var record := KeyValue(key, value, lease, s.revision + 1, s.revision + 1);
      BusNextOk(m.bus, Published(Event.Put(record)));
      System(Store(s.revision + 1, s.kv[key := record], Attach(s.leases, lease, key)),
             BusNext(m.bus, Published(Event.Put(record))))
  }

  lemma BidAfter(m: System, name: Bytes, value: Bytes, lease: LeaseId)
    requires BusOk(m.bus) && CampaignStep(m.store, name, value, lease).Done?
    ensures After(m, CampaignStep(m.store, name, value, lease)) == Bid(m, name, value, lease)
  {
    PublishNone(m.bus);
    var revision := m.store.revision + 1;
    PublishOne(m.bus, Event.Put(KeyValue(CampaignKey(name, lease), value, lease, revision, revision)));
  }

  lemma CampaignAfter(m: System, name: Bytes, value: Bytes, lease: LeaseId)
    requires BusOk(m.bus) && CampaignStep(m.store, name, value, lease).Done?
    ensures var o := CampaignStep(m.store, name, value, lease); var t := After(m, o);
      SystemNext(m, Serve(CampaignRequest(name, value, lease))) ==
      Up(if o.reply.Waiting? then t.(bus := BusNext(t.bus, Subscribed(name))) else t)
  {
    var o := CampaignStep(m.store, name, value, lease);
    var tail := if o.reply.Waiting? then [Subscribed(name)] else [];
    assert BusSteps(CampaignRequest(name, value, lease), o.reply, o.events) == Publications(o.events) + tail;
    BusRunConcat(m.bus, Publications(o.events), tail);
    assert o.reply.Waiting? ==> [Subscribed(name)][..0] == [];
  }

  /** A campaign bids, and then is elected or subscribes. */
  lemma CampaignServes(m: System, name: Bytes, value: Bytes, lease: LeaseId)
    requires BusOk(m.bus) && CampaignStep(m.store, name, value, lease).Done?
    ensures var r := CampaignRequest(name, value, lease);
      var key := CampaignKey(name, lease); var t := Bid(m, name, value, lease);
      if MustBid(m.store, key, value) && lease !in m.store.leases then Served(m, r, t, Failed(LeaseNotFound))
      else
        && Rangeable(name) && EtcdStore.Leader(t.store.kv, name).Some?
        && if EtcdStore.Leader(t.store.kv, name).value.key == key
           then Served(m, r, t, Elected(t.store.revision, key, lease))
           else Served(m, r, t.(bus := BusNext(t.bus, Subscribed(name))), Waiting(key))
  {
    BidAfter(m, name, value, lease);
    CampaignAfter(m, name, value, lease);
  }

  // ---- drawing a lease id ----------------------------------------------------------------

  /** `random::<i64>().abs()`, whose argument is never the least i64 (that would overflow). */
  function Abs(x: LeaseId): LeaseId
    requires x != -0x8000_0000_0000_0000
  {
    if x < 0 then -x else x
  }

  predicate Usable(leases: map<LeaseId, Lease>, x: LeaseId) {
    x != -0x8000_0000_0000_0000 && x != 0 && Abs(x) !in leases
  }

  /** The draws up to the first usable one are all defined. */
  ghost predicate Draws(leases: map<LeaseId, Lease>, draws: seq<LeaseId>, k: nat) {
    && k < |draws| && Usable(leases, draws[k])
    && forall i :: 0 <= i < k ==> draws[i] != -0x8000_0000_0000_0000 && !Usable(leases, draws[i])
  }

  lemma {:induction false} OpsPrefixDone(s: Store, ops: seq<TxnOp>, i: nat)
    requires i <= |ops| && OpsStep(s, ops).OpsDone?
    ensures OpsStep(s, ops[..i]).OpsDone?
    decreases |ops|
  {
    if i < |ops| {
      OpsPrefixDone(s, ops[..|ops| - 1], i);
      assert ops[..|ops| - 1][..i] == ops[..i];
    } else {
      assert ops[..i] == ops;
    }
  }

  /** Where a transaction stands that has performed the first i operations of its branch. */
  ghost predicate Performing(m: System, ops: seq<TxnOp>, i: nat, replies: seq<Reply>, t: System)
    requires BusOk(m.bus) && i <= |ops|
  {
    var o := OpsStep(m.store, ops[..i]);
    o.OpsDone? && replies == o.replies && t == System(o.store, BusRun(m.bus, Publications(o.events)))
  }

  lemma PerformNone(m: System, ops: seq<TxnOp>)
    requires BusOk(m.bus)
    ensures Performing(m, ops, 0, [], m)
  {
    PublishNone(m.bus);
  }

  lemma {:induction false} PerformMore(m: System, ops: seq<TxnOp>, i: nat, replies: seq<Reply>, t: System)
    requires BusOk(m.bus) && i < |ops| && OpsStep(m.store, ops).OpsDone? && Performing(m, ops, i, replies, t)
    ensures BusOk(t.bus) && OpStep(t.store, ops[i]).Done?
    ensures var o := OpStep(t.store, ops[i]); Performing(m, ops, i + 1, replies + [o.reply], After(t, o))
  {
    var before := OpsStep(m.store, ops[..i]);
    assert ops[..i + 1][..i] == ops[..i];
    OpsPrefixDone(m.store, ops, i + 1);
    PublishConcat(m.bus, before.events, OpStep(t.store, ops[i]).events);
  }

  lemma BranchDone(s: Store, txn: Txn)
    requires TxnStep(s, txn).Done?
    ensures OpsStep(s, if Succeeds(s.kv, txn) then txn.success else txn.failure).OpsDone?
  {
  }

  lemma {:induction false} TxnServes(m: System, txn: Txn, replies: seq<Reply>, t: System)
    requires BusOk(m.bus) && TxnStep(m.store, txn).Done?
    requires var ops := Chosen(m.store.kv, txn); Performing(m, ops, |ops|, replies, t)
    ensures var revision := m.store.revision + 1;
      Served(m, TxnRequest(txn), t.(store := t.store.(revision := revision)),
             TxnReply(revision, Succeeds(m.store.kv, txn), replies))
  {
    var ops := Chosen(m.store.kv, txn);
    assert ops[..|ops|] == ops;
    AfterServes(m, TxnRequest(txn));
  }

  /** Where a loop stands that has removed the keys `done`, in `order`, from kv0. */
  ghost predicate Removing(kv0: map<Bytes, KeyValue>, bus0: Bus, order: seq<Bytes>, done: set<Bytes>,
                           kv: map<Bytes, KeyValue>, bus: Bus)
    requires BusOk(bus0)
  {
    && Enumerates(order, done)
    && RemoveAll(kv0, order).Removed? && RemoveAll(kv0, order).kv == kv
    && bus == BusRun(bus0, Publications(RemoveAll(kv0, order).events))
  }

  lemma RemoveOneMore(kv0: map<Bytes, KeyValue>, bus0: Bus, order: seq<Bytes>, done: set<Bytes>,
                      kv: map<Bytes, KeyValue>, bus: Bus, key: Bytes)
    requires BusOk(bus0) && Removing(kv0, bus0, order, done, kv, bus) && key in kv && key !in done
    ensures Removing(kv0, bus0, order + [key], done + {key}, kv - {key}, BusNext(bus, Published(Event.Delete(kv[key]))))
  {
    EnumeratesMore(order, done, key);
    assert (order + [key])[..|order|] == order;
    PublishMore(bus0, RemoveAll(kv0, order).events, Event.Delete(kv[key]));
  }

  lemma EnumeratesMore(order: seq<Bytes>, elems: set<Bytes>, x: Bytes)
    requires Enumerates(order, elems) && x !in elems
    ensures Enumerates(order + [x], elems + {x})
  {
  }

  /** Where the loop stands that has yet to remove the pending ones of the keys. */
  ghost predicate Halfway(kv0: map<Bytes, KeyValue>, bus0: Bus, order: seq<Bytes>, keys: set<Bytes>,
                          pending: set<Bytes>, kv: map<Bytes, KeyValue>, bus: Bus)
    requires BusOk(bus0)
  {
    pending <= keys && pending <= kv.Keys && Removing(kv0, bus0, order, keys - pending, kv, bus)
  }

  lemma HalfwayMore(kv0: map<Bytes, KeyValue>, bus0: Bus, order: seq<Bytes>, keys: set<Bytes>, pending: set<Bytes>,
                    kv: map<Bytes, KeyValue>, bus: Bus, key: Bytes)
    requires BusOk(bus0) && Halfway(kv0, bus0, order, keys, pending, kv, bus) && key in pending
    ensures BusOk(bus) && key in kv
    ensures Halfway(kv0, bus0, order + [key], keys, pending - {key}, kv - {key},
                    BusNext(bus, Published(Event.Delete(kv[key]))))
  {
    RemoveOneMore(kv0, bus0, order, keys - pending, kv, bus, key);
    assert keys - (pending - {key}) == (keys - pending) + {key};
  }

  lemma HalfwayStart(kv0: map<Bytes, KeyValue>, bus0: Bus, keys: set<Bytes>)
    requires BusOk(bus0) && keys <= kv0.Keys
    ensures Halfway(kv0, bus0, [], keys, keys, kv0, bus0)
  {
    PublishNone(bus0);
  }

  lemma HalfwayEnd(kv0: map<Bytes, KeyValue>, bus0: Bus, order: seq<Bytes>, keys: set<Bytes>,
                   kv: map<Bytes, KeyValue>, bus: Bus)
    requires BusOk(bus0) && Halfway(kv0, bus0, order, keys, {}, kv, bus) && keys <= kv0.Keys
    ensures Removing(kv0, bus0, order, keys, kv, bus) && kv == kv0 - keys
  {
    assert keys - {} == keys;
    RemoveAllExact(kv0, order);
  }

  /** What an expiry pass has done so far. */
  ghost predicate Passing(s0: Store, bus0: Bus, visits: seq<Visit>,
                          kv: map<Bytes, KeyValue>, leases: map<LeaseId, Lease>, bus: Bus)
    requires BusOk(bus0)
  {
    var p := ExpiryPass(s0, visits);
    p.Passed? && p.kv == kv && p.leases == leases && bus == BusRun(bus0, Publications(p.events))
  }

  /** The leases still to be visited are as they were, with the keys they may take along. */
  ghost predicate Untouched(s0: Store, pending: set<LeaseId>, kv: map<Bytes, KeyValue>, leases: map<LeaseId, Lease>) {
    && (forall id :: id in pending ==> id in s0.leases && id in leases && leases[id] == s0.leases[id])
    && (forall id :: id in pending && leases[id].ttl <= 1 ==> leases[id].keys <= kv.Keys)
  }

  /** Where an expiry pass stands: the leases visited so far, and those still pending, untouched. */
  ghost predicate Ticking(s0: Store, bus0: Bus, visits: seq<Visit>, pending: set<LeaseId>,
                          kv: map<Bytes, KeyValue>, leases: map<LeaseId, Lease>, bus: Bus)
    requires BusOk(bus0)
  {
    && Visitable(s0, visits)
    && (forall id :: id in s0.leases ==> (Visited(visits, id) <==> id !in pending))
    && Passing(s0, bus0, visits, kv, leases, bus) && Untouched(s0, pending, kv, leases)
  }

  lemma TickingPending(s0: Store, bus0: Bus, visits: seq<Visit>, pending: set<LeaseId>,
                       kv: map<Bytes, KeyValue>, leases: map<LeaseId, Lease>, bus: Bus, id: LeaseId)
    requires BusOk(bus0) && Ticking(s0, bus0, visits, pending, kv, leases, bus) && id in pending
    ensures id in leases && (leases[id].ttl <= 1 ==> leases[id].keys <= kv.Keys)
  {
  }

  lemma {:induction false} VisitableMore(s: Store, visits: seq<Visit>, v: Visit)
    requires Visitable(s, visits) && !Visited(visits, v.id) && v.id in s.leases
      && Enumerates(v.keys, s.leases[v.id].keys)
    ensures Visitable(s, visits + [v])
    ensures forall id :: Visited(visits + [v], id) <==> Visited(visits, id) || id == v.id
  {
    forall id ensures Visited(visits + [v], id) <==> Visited(visits, id) || id == v.id {
      assert (visits + [v])[..|visits|] == visits;
      VisitedMore(visits + [v], id);
    }
  }

  lemma AscendingEnumerates(keys: set<Bytes>)
    ensures Enumerates(Ascending(keys), keys)
  {
    var a := Ascending(keys);
    forall i, j | 0 <= i < j < |a| ensures a[i] != a[j] { LessTrichotomy(a[i], a[i]); }
  }

  /** What the pass does to one lease: with time left it loses a second, and as its keys are not
      visited any order will do; out of time it is dropped with its keys. */
  ghost predicate Aged(kv: map<Bytes, KeyValue>, leases: map<LeaseId, Lease>, bus: Bus, v: Visit,
                       kv': map<Bytes, KeyValue>, leases': map<LeaseId, Lease>, bus': Bus)
    requires BusOk(bus)
  {
    && v.id in leases && Enumerates(v.keys, leases[v.id].keys)
    && var l := leases[v.id];
       if l.ttl > 1 then kv' == kv && leases' == leases[v.id := l.(ttl := l.ttl - 1)] && bus' == bus
       else
         && leases' == leases - {v.id} && kv' == kv - l.keys
         && Removing(kv, bus, v.keys, l.keys, kv', bus')
  }

  /** The part of `Ticking` that follows the pass. */
  lemma PassMore(s0: Store, bus0: Bus, visits: seq<Visit>, kv: map<Bytes, KeyValue>, leases: map<LeaseId, Lease>,
                 bus: Bus, v: Visit, kv': map<Bytes, KeyValue>, leases': map<LeaseId, Lease>, bus': Bus)
    requires BusOk(bus0) && BusOk(bus) && Passing(s0, bus0, visits, kv, leases, bus)
    requires Aged(kv, leases, bus, v, kv', leases', bus')
    ensures Passing(s0, bus0, visits + [v], kv', leases', bus')
  {
    assert (visits + [v])[..|visits|] == visits;
    if leases[v.id].ttl <= 1 {
      PublishConcat(bus0, ExpiryPass(s0, visits).events, RemoveAll(kv, v.keys).events);
    }
  }

  /** The pending leases and their keys are not touched by another lease's turn. */
  lemma PendingMore(s0: Store, pending: set<LeaseId>, kv: map<Bytes, KeyValue>, leases: map<LeaseId, Lease>, bus: Bus,
                    v: Visit, kv': map<Bytes, KeyValue>, leases': map<LeaseId, Lease>, bus': Bus)
    requires BusOk(bus) && ExpiryReady(s0) && Untouched(s0, pending, kv, leases) && v.id in pending
    requires Aged(kv, leases, bus, v, kv', leases', bus')
    ensures Untouched(s0, pending - {v.id}, kv', leases')
  {
  }

  lemma {:induction false} VisitMore(s0: Store, bus0: Bus, visits: seq<Visit>, pending: set<LeaseId>,
                                     kv: map<Bytes, KeyValue>, leases: map<LeaseId, Lease>, bus: Bus,
                                     v: Visit, kv': map<Bytes, KeyValue>, leases': map<LeaseId, Lease>, bus': Bus)
    requires BusOk(bus0) && BusOk(bus) && ExpiryReady(s0) && Ticking(s0, bus0, visits, pending, kv, leases, bus)
    requires v.id in pending && Aged(kv, leases, bus, v, kv', leases', bus')
    ensures Ticking(s0, bus0, visits + [v], pending - {v.id}, kv', leases', bus')
  {
    PassMore(s0, bus0, visits, kv, leases, bus, v, kv', leases', bus');
    PendingMore(s0, pending, kv, leases, bus, v, kv', leases', bus');
    VisitableMore(s0, visits, v);
  }

  lemma TickStart(s0: Store, bus0: Bus)
    requires BusOk(bus0) && ExpiryReady(s0)
    ensures Ticking(s0, bus0, [], s0.leases.Keys, s0.kv, s0.leases, bus0)
  {
    PublishNone(bus0);
  }

  lemma TickServes(s0: Store, bus0: Bus, visits: seq<Visit>, kv: map<Bytes, KeyValue>, leases: map<LeaseId, Lease>,
                   bus: Bus)
    requires BusOk(bus0) && Ticking(s0, bus0, visits, {}, kv, leases, bus)
    ensures Legal(s0, TickRequest(visits))
    ensures var revision := if |leases| != |s0.leases| then s0.revision + 1 else s0.revision;
      Served(System(s0, bus0), TickRequest(visits), System(Store(revision, kv, leases), bus), TickReply)
  {
    AfterServes(System(s0, bus0), TickRequest(visits));
  }

  class Service {
    var revision: int
    var kv: map<Bytes, KeyValue>
    var leases: map<LeaseId, Lease>
    const watcher: EventBus

    ghost predicate Valid()
      reads this, watcher
    {
      watcher.Valid()
    }

    ghost function Data(): Store
      reads this
    {
      Store(revision, kv, leases)
    }

    ghost function View(): System
      reads this, watcher
    {
      System(Data(), watcher.View())
    }

    constructor ()
      ensures Valid() && View() == System(EmptyStore, EmptyBus) && fresh(watcher)
    {
      revision, kv, leases := 0, map[], map[];
      watcher := new EventBus();
    }

    method Put(key: Bytes, value: Bytes, lease: LeaseId, wantPrev: bool) returns (reply: Reply)
      requires Valid() && PutStep(Data(), key, value, lease, wantPrev).Done?
      modifies this, watcher
      ensures Valid() && Served(old(View()), PutRequest(key, value, lease, wantPrev), View(), reply)
    {
      PutServes(View(), key, value, lease, wantPrev);
      var prev := Lookup(kv, key);
      var ok := MoveKey(key, value, lease, wantPrev, prev);
      if !ok {
        assert View() == old(View());
        return Failed(LeaseNotFound);
      }
      revision := revision + 1;
      var record := KeyValue(key, value, lease, if prev.Some? then prev.value.created else revision, revision);
      kv := kv[key := record];
      watcher.Publish(Event.Put(record));
      assert watcher.View() == BusNext(old(watcher.View()), Published(Event.Put(record)));
      reply := PutReply(revision, if wantPrev then prev else None);
    }

    /** Adds the key to its new lease and removes it from its old one. */
    method MoveKey(key: Bytes, value: Bytes, lease: LeaseId, wantPrev: bool, prev: Option<KeyValue>) returns (ok: bool)
      requires prev == Lookup(kv, key) && PutStep(Data(), key, value, lease, wantPrev).Done?
      modifies this`leases
      ensures ok == (lease == 0 || lease in old(leases))
      ensures leases == PutStep(old(Data()), key, value, lease, wantPrev).store.leases
    {
      if lease != 0 {
        if lease !in leases { return false; }
        leases := Attach(leases, lease, key);
      }
      if prev.Some? && prev.value.lease != 0 {
        leases := Detach(leases, prev.value.lease, key);
      }
      ok := true;
    }

    method Get(key: Bytes, prefix: bool) returns (reply: Reply)
      requires Valid() && GetStep(Data(), key, prefix).Done?
      ensures Served(View(), GetRequest(key, prefix), View(), reply)
    {
      OneEventServes(View(), GetRequest(key, prefix));
      var kvs: seq<KeyValue>;
      if prefix {
        kvs := PrefixRange(kv, key);
      } else {
        kvs := if key in kv then [kv[key]] else [];
      }
      reply := GetReply(revision, kvs);
    }

    method Delete(key: Bytes) returns (reply: Reply)
      requires Valid() && DeleteStep(Data(), key).Done?
      modifies this, watcher
      ensures Valid() && Served(old(View()), DeleteRequest(key), View(), reply)
    {
      OneEventServes(View(), DeleteRequest(key));
      var prev := Lookup(kv, key);
      kv := kv - {key};
      if prev.Some? {
        revision := revision + 1;
        if prev.value.lease != 0 {
          leases := Detach(leases, prev.value.lease, key);
        }
        watcher.Publish(Event.Delete(prev.value));
      }
      reply := DeleteReply(revision, if prev.Some? then 1 else 0);
    }

    method Txn(txn: Txn) returns (reply: Reply)
      requires Valid() && TxnStep(Data(), txn).Done?
      modifies this, watcher
      ensures Valid() && Served(old(View()), TxnRequest(txn), View(), reply)
      decreases txn
    {
      var succeeded := Succeeds(kv, txn);
      var start := revision;
      var replies: seq<Reply> := [];
      var ops := if succeeded then txn.success else txn.failure;
      ghost var m := View();
      BranchDone(m.store, txn);
      PerformNone(m, ops);
      var i := 0;
      while i < |ops|
        invariant 0 <= i <= |ops| && Valid()
        invariant Performing(m, ops, i, replies, View())
      {
        PerformMore(m, ops, i, replies, View());
        var r := Perform(ops[i]);
        replies := replies + [r];
        i := i + 1;
      }
      TxnServes(m, txn, replies, View());
      revision := start + 1;
      reply := TxnReply(revision, succeeded, replies);
    }

    /** One operation of a transaction's branch. */
    method Perform(op: TxnOp) returns (reply: Reply)
      requires Valid() && OpStep(Data(), op).Done?
      modifies this, watcher
      ensures Valid() && View() == After(old(View()), OpStep(old(Data()), op))
      ensures reply == OpStep(old(Data()), op).reply
      decreases op
    {
      AfterServes(View(), EtcdTxn.AsRequest(op));
      match op
      case PutOp(key, value, lease, wantPrev) => reply := Put(key, value, lease, wantPrev);
      case GetOp(key, prefix) => reply := Get(key, prefix);
      case DeleteOp(key) => reply := Delete(key);
      case NestedOp(txn) => reply := Txn(txn);
    }

    /** Draws ids until one is neither zero nor taken; the draws are given, and are not consulted when
        the caller names an id. */
    method Grant(ttl: int, id: LeaseId, draws: seq<LeaseId>) returns (reply: Reply, ghost drawn: LeaseId)
      requires Valid()
      requires if id == 0 then exists k: nat :: Draws(leases, draws, k) else id !in leases
      modifies this
      ensures id == 0 ==> exists k: nat :: Draws(old(leases), draws, k) && drawn == Abs(draws[k])
      ensures Legal(old(Data()), GrantRequest(ttl, id, drawn))
      ensures Valid() && Served(old(View()), GrantRequest(ttl, id, drawn), View(), reply)
    {
      var chosen := id;
      if id == 0 {
        ghost var k: nat :| Draws(leases, draws, k);
        var i := 0;
        while chosen in leases || chosen == 0
          invariant 0 <= i <= k + 1 && (i > 0 ==> chosen == Abs(draws[i - 1]))
          invariant i == 0 ==> chosen == 0
          invariant i == k + 1 <==> !(chosen in leases || chosen == 0)
          decreases k + 1 - i
        {
          chosen := Abs(draws[i]);
          i := i + 1;
        }
      }
      drawn := chosen;
      OneEventServes(View(), GrantRequest(ttl, id, drawn));
      leases := leases[chosen := Lease(ttl, ttl, {})];
      revision := revision + 1;
      reply := GrantReply(revision, chosen, ttl);
    }

    /** Removes a set of keys in an order nobody controls, publishing each removal. */
    method RemoveKeys(keys: set<Bytes>) returns (ghost order: seq<Bytes>)
      requires Valid() && keys <= kv.Keys
      modifies this`kv, watcher
      ensures Valid() && kv == old(kv) - keys
      ensures Removing(old(kv), old(watcher.View()), order, keys, kv, watcher.View())
    {
      order := [];
      var pending := keys;
      ghost var kv0, bus0 := kv, watcher.View();
      HalfwayStart(kv0, bus0, keys);
      while pending != {}
        invariant Valid() && Halfway(kv0, bus0, order, keys, pending, kv, watcher.View())
        decreases pending
      {
        var key :| key in pending;
        HalfwayMore(kv0, bus0, order, keys, pending, kv, watcher.View(), key);
        pending, order := pending - {key}, order + [key];
        var record := kv[key];
        kv := kv - {key};
        watcher.Publish(Event.Delete(record));
      }
      HalfwayEnd(kv0, bus0, order, keys, kv, watcher.View());
    }

    method Revoke(id: LeaseId) returns (reply: Reply, ghost order: seq<Bytes>)
      requires Valid() && KeysStored(Data(), id)
      modifies this, watcher
      ensures Legal(old(Data()), RevokeRequest(id, order))
      ensures Valid() && Served(old(View()), RevokeRequest(id, order), View(), reply)
    {
      if id !in leases {
        OneEventServes(View(), RevokeRequest(id, []));
        return Failed(LeaseNotFound), [];
      }
      var keys := leases[id].keys;
      leases := leases - {id};
      order := RemoveKeys(keys);
      AfterServes(old(View()), RevokeRequest(id, order));
      revision := revision + 1;
      reply := RevokeReply(revision);
    }

    method KeepAlive(id: LeaseId) returns (reply: Reply)
      requires Valid()
      modifies this
      ensures Valid() && Served(old(View()), KeepAliveRequest(id), View(), reply)
    {
      OneEventServes(View(), KeepAliveRequest(id));
      if id !in leases { return Failed(LeaseNotFound); }
      var ttl := leases[id].granted;
      leases := leases[id := leases[id].(ttl := ttl)];
      revision := revision + 1;
      reply := KeepAliveReply(revision, id, ttl);
    }

    /** One lease of an expiry pass: aged by a second, or dropped with its keys. */
    method AgeLease(id: LeaseId) returns (ghost v: Visit)
      requires Valid() && id in leases && (leases[id].ttl <= 1 ==> leases[id].keys <= kv.Keys)
      modifies this`kv, this`leases, watcher
      ensures Valid() && v.id == id
      ensures Aged(old(kv), old(leases), old(watcher.View()), v, kv, leases, watcher.View())
    {
      var l := leases[id];
      if l.ttl - 1 <= 0 {
        ghost var order := RemoveKeys(l.keys);
        leases := leases - {id};
        v := Visit(id, order);
      } else {
        AscendingEnumerates(l.keys);
        leases := leases[id := l.(ttl := l.ttl - 1)];
        v := Visit(id, Ascending(l.keys));
      }
    }

    /** Ages every lease by a second and drops the expired ones; leases and keys are met in an
        order nobody controls. */
    method Tick() returns (ghost visits: seq<Visit>)
      requires Valid() && ExpiryReady(Data())
      modifies this, watcher
      ensures Legal(old(Data()), TickRequest(visits))
      ensures Valid() && Served(old(View()), TickRequest(visits), View(), TickReply)
    {
      var count := |leases|;
      var pending := leases.Keys;
      ghost var s0, bus0 := Data(), watcher.View();
      visits := [];
      TickStart(s0, bus0);
      while pending != {}
        invariant Valid() && revision == old(revision)
        invariant Ticking(s0, bus0, visits, pending, kv, leases, watcher.View())
        decreases pending
      {
        var id :| id in pending;
        TickingPending(s0, bus0, visits, pending, kv, leases, watcher.View(), id);
        ghost var kv1, leases1, bus1 := kv, leases, watcher.View();
        ghost var v := AgeLease(id);
        VisitMore(s0, bus0, visits, pending, kv1, leases1, bus1, v, kv, leases, watcher.View());
        visits := visits + [v];
        pending := pending - {id};
      }
      TickServes(s0, bus0, visits, kv, leases, watcher.View());
      if |leases| != count {
        revision := revision + 1;
      }
    }

    /** The first of the oldest records under the name. */
    method Leader(name: Bytes) returns (best: Option<KeyValue>)
      requires Rangeable(name)
      ensures best == EtcdStore.Leader(kv, name)
    {
      var range := PrefixRange(kv, name);
      best := None;
      var i := 0;
      while i < |range|
        invariant 0 <= i <= |range|
        invariant best == MinByCreate(range[..i])
      {
        assert range[..i + 1][..i] == range[..i];
        if best.None? || range[i].created < best.value.created {
          best := Some(range[i]);
        }
        i := i + 1;
      }
      assert range[..i] == range;
    }

    /** Writes the candidate's record if it is missing or holds another value. */
    method PlaceBid(name: Bytes, value: Bytes, lease: LeaseId, key: Bytes) returns (ok: bool)
      requires Valid() && key == CampaignKey(name, lease)
      modifies this, watcher
      ensures Valid() && View() == Bid(old(View()), name, value, lease)
      ensures ok == !(MustBid(old(Data()), key, value) && lease !in old(leases))
    {
      if key !in kv || kv[key].value != value {
        revision := revision + 1;
        var record := KeyValue(key, value, lease, revision, revision);
        if lease !in leases { return false; }
        leases := Attach(leases, lease, key);
        kv := kv[key := record];
        watcher.Publish(Event.Put(record));
      }
      ok := true;
    }

    method Campaign(name: Bytes, value: Bytes, lease: LeaseId) returns (reply: Reply)
      requires Valid() && CampaignStep(Data(), name, value, lease).Done?
      modifies this, watcher
      ensures Valid() && Served(old(View()), CampaignRequest(name, value, lease), View(), reply)
    {
      var key := CampaignKey(name, lease);
      CampaignServes(View(), name, value, lease);
      var ok := PlaceBid(name, value, lease, key);
      if !ok { return Failed(LeaseNotFound); }
      var leader := Leader(name);
      if leader.value.key == key {
        reply := Elected(revision, key, lease);
      } else {
        var channel := watcher.Subscribe(name);
        reply := Waiting(key);
      }
    }

    method Proclaim(key: Bytes, value: Bytes) returns (reply: Reply)
      requires Valid()
      modifies this, watcher
      ensures Valid() && Served(old(View()), ProclaimRequest(key, value), View(), reply)
    {
      ProclaimServes(View(), key, value);
      if key !in kv { return Failed(SessionExpired); }
      revision := revision + 1;
      var record := kv[key];
      record := record.(value := value);
      record := record.(modified := revision);
      kv := kv[key := record];
      watcher.Publish(Event.Put(record));
      reply := ProclaimReply(revision);
    }

    method Observe(name: Bytes) returns (reply: Reply, channel: nat)
      requires Valid() && Rangeable(name)
      modifies watcher
      ensures Valid() && Served(old(View()), ObserveRequest(name), View(), reply)
      ensures channel == |old(watcher.channels)|
    {
      ObserveServes(View(), name);
      channel := watcher.Subscribe(name);
      var leader := Leader(name);
      reply := LeaderReply(revision, leader);
    }

    method Resign(key: Bytes) returns (reply: Reply)
      requires Valid() && ResignStep(Data(), key).Done?
      modifies this, watcher
      ensures Valid() && Served(old(View()), ResignRequest(key), View(), reply)
    {
      OneEventServes(View(), ResignRequest(key));
      if key !in kv { return Failed(SessionExpired); }
      var record := kv[key];
      kv := kv - {key};
      leases := Detach(leases, record.lease, key);
      watcher.Publish(Event.Delete(record));
      revision := revision + 1;
      reply := ResignReply(revision);
    }
  }
}
