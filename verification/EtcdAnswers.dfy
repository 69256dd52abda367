/** What requests answer and leave behind, told by what later requests, observers and waiting candidates
    find; and how the revision counts them. */
module EtcdAnswers {
  import opened ByteStrings
  import opened EtcdStore
  import opened EtcdReplay
  import opened EtcdLeader
  import opened EtcdLeases
  import opened EtcdReads
  import opened EtcdWatch
  import opened EtcdCandidates

  // ---- leader and observe ----------------------------------------------------------------

  /** The answer names the leader: nobody exactly when no key is under the name. */
  ghost predicate NamesLeader(kv: map<Bytes, KeyValue>, name: Bytes, leader: Option<KeyValue>) {
    if leader.None? then NobodyStands(kv, name) else IsLeader(kv, name, leader.value)
  }

  lemma NamesOne(kv: map<Bytes, KeyValue>, name: Bytes, leader: Option<KeyValue>)
    requires WellKeyed(kv) && Rangeable(name)
    ensures NamesLeader(kv, name, leader) <==> Leader(kv, name) == leader
  {
    LeaderSpec(kv, name);
    if leader.Some? && NamesLeader(kv, name, leader) { LeaderUnique(kv, name, leader.value); }
  }

  /** Asking for the leader, or observing it, changes nothing and is answered with the leader; it fails
      exactly on names whose range has no end. */
  lemma LeaderAnswer(s: Store, name: Bytes, r: Request)
    requires WellKeyed(s.kv) && (r == LeaderRequest(name) || r == ObserveRequest(name))
    ensures Step(s, r).Done? <==> Rangeable(name)
    ensures Step(s, r).Done? ==>
      && Step(s, r).store == s && Step(s, r).events == [] && Step(s, r).reply.LeaderReply?
      && Step(s, r).reply.revision == s.revision && NamesLeader(s.kv, name, Step(s, r).reply.leader)
  {
    if Rangeable(name) { NamesOne(s.kv, name, Leader(s.kv, name)); }
  }

  /** An observer is listed under the name with an empty channel of its own, ... */
  lemma ObserverIsListed(m: System, name: Bytes)
    requires BusOk(m.bus) && Rangeable(name)
    ensures var r := SystemNext(m, Serve(ObserveRequest(name)));
      r.Up? && r.system.store == m.store
      && var w := Watcher(name, |m.bus.channels|); Listed(r.system, w) && r.system.bus.channels[w.channel].Sent() == []
  {
    assert BusSteps(ObserveRequest(name), Step(m.store, ObserveRequest(name)).reply, []) == [Subscribed(name)];
    assert [Subscribed(name)][..0] == [];
    assert BusRun(m.bus, [Subscribed(name)]) == Subscribe(m.bus, name);
    assert Watcher(name, |m.bus.channels|) == Subscribe(m.bus, name).list[|m.bus.list|];
  }

  /** A watcher still listed that was sent nothing finds the leader that was named before. */
  lemma {:induction false} StillNamed(m: System, w: Watcher, steps: seq<SystemStep>, leader: Option<KeyValue>)
    requires BusOk(m.bus) && WellKeyed(m.store.kv) && w in m.bus.list && Rangeable(w.prefix)
    requires SystemRun(m, steps).Up? && NamesLeader(m.store.kv, w.prefix, leader)
    requires var r := SystemRun(m, steps).system;
      w in r.bus.list && r.bus.channels[w.channel].Sent() == m.bus.channels[w.channel].Sent()
    ensures NamesLeader(SystemRun(m, steps).system.store.kv, w.prefix, leader)
  {
    SystemStore(m, steps);
    RunReplays(m.store, Requests(steps));
    NamesOne(m.store.kv, w.prefix, leader);
    NamesOne(SystemRun(m, steps).system.store.kv, w.prefix, leader);
    NoLostWakeup(m, steps, w);
  }

  /** ... and as long as it is listed and was sent nothing, whatever server and receivers do, the record
      it was answered is the one that leads. */
  lemma {:induction false} ObserverIsUpToDate(m: System, name: Bytes, t: System, steps: seq<SystemStep>)
    requires BusOk(m.bus) && WellKeyed(m.store.kv) && Rangeable(name)
    requires SystemNext(m, Serve(ObserveRequest(name))) == Up(t) && SystemRun(t, steps).Up?
    requires var r := SystemRun(t, steps).system; var w := Watcher(name, |m.bus.channels|);
      w in r.bus.list && r.bus.channels[w.channel].Sent() == []
    ensures NamesLeader(SystemRun(t, steps).system.store.kv, name, Step(m.store, ObserveRequest(name)).reply.leader)
  {
    ObserverIsListed(m, name);
    LeaderAnswer(m.store, name, ObserveRequest(name));
    StillNamed(t, Watcher(name, |m.bus.channels|), steps, Step(m.store, ObserveRequest(name)).reply.leader);
  }

  // ---- resigning -------------------------------------------------------------------------

  /** The leases are those of s, except that the given one has lost the key from its list. */
  ghost predicate TakenOff(s: Store, t: Store, id: LeaseId, key: Bytes) {
    && t.leases.Keys == s.leases.Keys
    && forall x :: x in s.leases ==>
         && t.leases[x].ttl == s.leases[x].ttl && t.leases[x].granted == s.leases[x].granted
         && t.leases[x].keys == if x == id then s.leases[x].keys - {key} else s.leases[x].keys
  }

  ghost predicate Unlisted(s: Store, key: Bytes) {
    forall id :: id in s.leases ==> key !in s.leases[id].keys
  }

  /** A resignation of a key that is not stored is refused and changes nothing.  One that is answered
      has removed just this record, has told the watchers so once, and has moved the revision by one;
      with an agreeing index no lease lists the key any more.  It fails exactly if the lease of the
      record is unknown. */
  lemma {:induction false} ResignExact(s: Store, key: Bytes)
    ensures var o := Step(s, ResignRequest(key)); var record := Lookup(s.kv, key);
      && (o.Panic? <==> record.Some? && record.value.lease !in s.leases)
      && (record.None? ==> o == Done(s, Failed(SessionExpired), []))
      && (o.Done? && record.Some? ==>
            && o.reply == ResignReply(s.revision + 1) && o.store.revision == s.revision + 1
            && o.events == [Event.Delete(record.value)]
            && Step(o.store, GetRequest(key, false)).reply == GetReply(s.revision + 1, [])
            && OthersKept(s, o.store, key) && TakenOff(s, o.store, record.value.lease, key)
            && (Indexed(s) ==> Unlisted(o.store, key) && Indexed(o.store)))
  {
    var o := Step(s, ResignRequest(key));
    if o.Done? && key in s.kv {
      assert o.store.kv == s.kv - {key};
      if Indexed(s) { StepIndex(s, ResignRequest(key)); }
    }
  }

  lemma ResignLeaves(s: Store, key: Bytes)
    requires key in s.kv && Step(s, ResignRequest(key)).Done?
    ensures Step(s, ResignRequest(key)).store.kv == s.kv - {key}
  {
    var t := Step(s, ResignRequest(key)).store;
    ResignExact(s, key);
    ReadsNothing(t, key);
    forall k ensures Lookup(t.kv, k) == Lookup(s.kv - {key}, k) {
      if k != key { assert Lookup(t.kv, k) == Lookup(s.kv, k); }
    }
    SameLookups(t.kv, s.kv - {key});
  }

  /** The first of the records that a resigned key leaves behind leads every name above the key. */
  lemma ResignSucceeds(s: Store, key: Bytes, name: Bytes, leader: Option<KeyValue>)
    requires WellKeyed(s.kv) && Rangeable(name) && key in s.kv && Step(s, ResignRequest(key)).Done?
    ensures Step(Step(s, ResignRequest(key)).store, LeaderRequest(name)).reply == LeaderReply(s.revision + 1, leader)
      <==> NamesLeader(s.kv - {key}, name, leader)
  {
    var t := Step(s, ResignRequest(key)).store;
    ResignExact(s, key);
    ResignLeaves(s, key);
    LeaderAnswer(t, name, LeaderRequest(name));
    NamesOne(t.kv, name, leader);
  }

  lemma ReadsNothing(s: Store, key: Bytes)
    ensures Step(s, GetRequest(key, false)).reply == GetReply(s.revision, []) <==> key !in s.kv
  {
    var o := Step(s, GetRequest(key, false));
    if key in s.kv { assert o.reply == GetReply(s.revision, [s.kv[key]]); }
  }

  lemma SameLookups(a: map<Bytes, KeyValue>, b: map<Bytes, KeyValue>)
    requires forall k :: Lookup(a, k) == Lookup(b, k)
    ensures a == b
  {
    forall k ensures (k in a <==> k in b) && (k in a ==> a[k] == b[k]) {
      assert Lookup(a, k) == Lookup(b, k);
    }
  }

  lemma OneRequest(m: System, r: Request)
    requires BusOk(m.bus)
    ensures Requests([Serve(r)]) == [r]
    ensures SystemRun(m, [Serve(r)]) == SystemNext(m, Serve(r))
  {
    assert [Serve(r)][..0] == [] && Requests([]) == [] && SystemRun(m, []) == Up(m);
  }

  lemma OneRun(s: Store, r: Request)
    requires Run(s, [r]).Ran?
    ensures Step(s, r).Done?
    ensures Run(s, [r]).store == Step(s, r).store && Run(s, [r]).events == Step(s, r).events
  {
    assert [] + [r] == [r] && Run(s, []) == Ran(s, [], []);
    RanBefore(s, [], r);
    RunMore(s, [], r);
  }

  /** A waiting candidate with room is sent the Delete of the resigned record, behind what is queued for
      it already; whatever follows does not take it away. */
  lemma {:induction false} ResignIsAnnounced(m: System, w: Watcher, key: Bytes, steps: seq<SystemStep>)
    requires WellKeyed(m.store.kv) && key in m.store.kv
    requires Listed(m, w) && |Queue(m, w)| < CAPACITY && w.prefix <= key
    requires LeavesChannel(steps, w.channel) && SystemRun(m, [Serve(ResignRequest(key))] + steps).Up?
    ensures var r := SystemRun(m, [Serve(ResignRequest(key))] + steps).system;
      && w.channel < |r.bus.channels|
      && Queue(m, w) + [Event.Delete(m.store.kv[key])] <= Queue(r, w)
  {
    var first := [Serve(ResignRequest(key))];
    SystemSplit(m, first, steps);
    ResignRound(m, w, key);
    var t := SystemRun(m, first).system;
    DroppedIffOverflow(t, steps, w);
  }

  /** The same right after the resignation. */
  lemma {:induction false} ResignRound(m: System, w: Watcher, key: Bytes)
    requires WellKeyed(m.store.kv) && key in m.store.kv
    requires Listed(m, w) && |Queue(m, w)| < CAPACITY && w.prefix <= key
    requires SystemRun(m, [Serve(ResignRequest(key))]).Up?
    ensures Step(m.store, ResignRequest(key)).Done?
    ensures var t := SystemRun(m, [Serve(ResignRequest(key))]).system;
      && t.store == Step(m.store, ResignRequest(key)).store && Listed(t, w)
      && Queue(t, w) == Queue(m, w) + [Event.Delete(m.store.kv[key])]
  {
    OneRequest(m, ResignRequest(key));
    SystemStore(m, [Serve(ResignRequest(key))]);
    OneRun(m.store, ResignRequest(key));
    ResignExact(m.store, key);
    DroppedIffOverflow(m, [Serve(ResignRequest(key))], w);
    UnderOne(w.prefix, Event.Delete(m.store.kv[key]));
  }

  /** So its wait is over in that very round if nobody else is left to lead: it has won if its own record is
      first of those left behind, and its session has expired if there is none; otherwise it waits on. */
  lemma {:induction false} ResignHandsOver(m: System, w: Watcher, key: Bytes, bid: Bytes, leader: Option<KeyValue>)
    requires WellKeyed(m.store.kv) && key in m.store.kv
    requires Listed(m, w) && |Queue(m, w)| < CAPACITY && w.prefix <= key
    requires SystemRun(m, [Serve(ResignRequest(key))]).Up? && NamesLeader(m.store.kv - {key}, w.prefix, leader)
    ensures var r := LoopRound(m, w, bid, [Serve(ResignRequest(key))]);
      if leader.None? then r.Ended? && r.verdict == Verdict.Expired
      else if leader.value.key == bid then r.Ended? && r.verdict == Won(m.store.revision + 1, leader.value)
      else r.Pending?
  {
    ResignRound(m, w, key);
    var t := SystemRun(m, [Serve(ResignRequest(key))]).system;
    assert t.store.kv == m.store.kv - {key} && t.store.revision == m.store.revision + 1 by {
      ResignExact(m.store, key);
      ResignLeaves(m.store, key);
    }
    VerdictFor(t.store, w.prefix, bid, leader);
  }

  lemma VerdictFor(s: Store, name: Bytes, bid: Bytes, leader: Option<KeyValue>)
    requires WellKeyed(s.kv) && Rangeable(name) && NamesLeader(s.kv, name, leader)
    ensures Look(s, name, bid) ==
      if leader.None? then Verdict.Expired
      else if leader.value.key == bid then Won(s.revision, leader.value) else KeepWaiting
  {
    NamesOne(s.kv, name, leader);
  }

  lemma UnderOne(prefix: Bytes, e: Event)
    requires Matches(prefix, e)
    ensures Under(prefix, [e]) == [e]
  {
    assert [e][..0] == [];
  }

  // ---- campaigning and proclaiming -------------------------------------------------------

  /** The leases are those of s, except that the given one also lists the key. */
  ghost predicate PutOn(s: Store, t: Store, id: LeaseId, key: Bytes) {
    && t.leases.Keys == s.leases.Keys
    && forall x :: x in s.leases ==>
         && t.leases[x].ttl == s.leases[x].ttl && t.leases[x].granted == s.leases[x].granted
         && t.leases[x].keys == if x == id then s.leases[x].keys + {key} else s.leases[x].keys
  }

  /** A candidate that does not stand with this value yet and has a lease gets its record: new, on its
      lease, and announced.  One without a lease only costs a revision. */
  lemma {:induction false} CampaignBids(s: Store, name: Bytes, value: Bytes, lease: LeaseId)
    requires WellKeyed(s.kv) && Step(s, CampaignRequest(name, value, lease)).Done?
    ensures var o := Step(s, CampaignRequest(name, value, lease)); var key := CampaignKey(name, lease);
      if Standing(s, name, value, lease) then o.store == s && o.events == [] && !o.reply.Failed?
      else
        && o.store.revision == s.revision + 1 && OthersKept(s, o.store, key)
        && (o.reply.Failed? <==> lease !in s.leases)
        && if o.reply.Failed? then
             o.reply == Failed(LeaseNotFound) && o.store == s.(revision := s.revision + 1) && o.events == []
           else
             var record := KeyValue(key, value, lease, s.revision + 1, s.revision + 1);
             && Step(o.store, GetRequest(key, false)).reply == GetReply(s.revision + 1, [record])
             && o.events == [Event.Put(record)] && PutOn(s, o.store, lease, key)
  {
    CampaignStore(s, name, value, lease);
  }

  /** And it is answered at once: elected exactly if its record leads now, told to wait otherwise. */
  lemma {:induction false} CampaignAnswer(s: Store, name: Bytes, value: Bytes, lease: LeaseId)
    requires WellKeyed(s.kv) && Step(s, CampaignRequest(name, value, lease)).Done?
    requires Standing(s, name, value, lease) || lease in s.leases
    ensures Rangeable(name)
    ensures var o := Step(s, CampaignRequest(name, value, lease)); var key := CampaignKey(name, lease);
      if exists r :: IsLeader(o.store.kv, name, r) && r.key == key
      then o.reply == Elected(o.store.revision, key, lease)
      else o.reply == Waiting(key) && AnotherLeads(o.store.kv, name, key)
  {
    var o := Step(s, CampaignRequest(name, value, lease));
    var key := CampaignKey(name, lease);
    CampaignStore(s, name, value, lease);
    assert name <= key && key in o.store.kv;
    LeaderSpec(o.store.kv, name);
    forall r | IsLeader(o.store.kv, name, r) ensures Leader(o.store.kv, name) == Some(r) {
      LeaderUnique(o.store.kv, name, r);
    }
  }

  /** From the reply on, as long as the candidate is listed and has nothing queued, another leads. */
  lemma {:induction false} WaitingIsRight(m: System, name: Bytes, value: Bytes, lease: LeaseId,
                                          t: System, schedule: seq<seq<SystemStep>>)
    requires BusOk(m.bus) && WellKeyed(m.store.kv) && Step(m.store, CampaignRequest(name, value, lease)).Done?
    requires Step(m.store, CampaignRequest(name, value, lease)).reply.Waiting?
    requires SystemNext(m, Serve(CampaignRequest(name, value, lease))) == Up(t)
    requires LeavesChannels(schedule, |m.bus.channels|)
    ensures Listed(t, Watcher(name, |m.bus.channels|))
    ensures var w := Watcher(name, |m.bus.channels|); var r := WaitLoop(t, w, CampaignKey(name, lease), schedule);
      r.Pending? && w in r.system.bus.list && Queue(r.system, w) == [] ==>
        AnotherLeads(r.system.store.kv, name, CampaignKey(name, lease))
  {
    var w := Watcher(name, |m.bus.channels|);
    WaitingIsListed(m, name, value, lease);
    CampaignBids(m.store, name, value, lease);
    CampaignAnswer(m.store, name, value, lease);
    StepReplays(m.store, CampaignRequest(name, value, lease));
    var r := WaitLoop(t, w, CampaignKey(name, lease), schedule);
    if r.Pending? && w in r.system.bus.list && Queue(r.system, w) == [] {
      NobodyWaitsInVain(t, w, CampaignKey(name, lease), schedule);
    }
  }

  /** A proclamation over a stored key writes value and modification revision, nothing else, and says so
      once; over a missing key it is refused. */
  lemma {:induction false} ProclaimExact(s: Store, key: Bytes, value: Bytes)
    ensures var o := Step(s, ProclaimRequest(key, value)); var record := Lookup(s.kv, key);
      if record.None? then o == Done(s, Failed(SessionExpired), [])
      else
        && o.Done? && o.reply == ProclaimReply(s.revision + 1) && o.store.revision == s.revision + 1
        && Step(o.store, GetRequest(key, false)).reply == GetReply(s.revision + 1, [o.store.kv[key]])
        && var now := o.store.kv[key];
        && now.value == value && now.modified == s.revision + 1
        && (now.key, now.lease, now.created) == (record.value.key, record.value.lease, record.value.created)
        && OthersKept(s, o.store, key) && o.store.leases == s.leases && o.events == [Event.Put(now)]
  {
  }

  /** So the proclaimed value is read back, with the lease and the creation date the record had, after any
      run that publishes no event of the key. */
  lemma {:induction false} ProclaimThenGet(s: Store, key: Bytes, value: Bytes, rs: seq<Request>)
    requires WellKeyed(s.kv) && key in s.kv
    requires var t := Step(s, ProclaimRequest(key, value)).store;
      Run(t, rs).Ran? && LastEvent(Run(t, rs).events, key).None?
    ensures var o := Step(s, ProclaimRequest(key, value)); var record := s.kv[key];
      && o.reply == ProclaimReply(s.revision + 1) && OthersKept(s, o.store, key)
      && Step(Run(o.store, rs).store, GetRequest(key, false)).reply.kvs ==
           [record.(value := value, modified := s.revision + 1)]
  {
    ProclaimExact(s, key, value);
    StepReplays(s, ProclaimRequest(key, value));
    GetTellsLastEvent(Step(s, ProclaimRequest(key, value)).store, rs, key);
  }

  /** So nobody gains or loses an office by it. */
  lemma {:induction false} ProclaimKeepsLeader(s: Store, key: Bytes, value: Bytes, name: Bytes,
                                               leader: Option<KeyValue>)
    requires WellKeyed(s.kv) && Rangeable(name) && key in s.kv && NamesLeader(s.kv, name, leader)
    ensures var t := Step(s, ProclaimRequest(key, value)).store;
      && (leader.None? ==> NamesLeader(t.kv, name, None))
      && (leader.Some? ==> leader.value.key in t.kv && NamesLeader(t.kv, name, Some(t.kv[leader.value.key])))
  {
    var t := Step(s, ProclaimRequest(key, value)).store;
    ProclaimExact(s, key, value);
    forall k
      ensures (k in t.kv <==> k in s.kv) && (k in t.kv ==> t.kv[k].key == k && t.kv[k].created == s.kv[k].created)
    {
      if k != key { assert Lookup(t.kv, k) == Lookup(s.kv, k); }
    }
  }

  // ---- the revision ----------------------------------------------------------------------

  /** Whether the request moves the revision: a transaction always does, a campaign does even if it is
      refused. */
  ghost predicate Moves(s: Store, r: Request) {
    match r
    case PutRequest(_, _, lease, _) => lease == 0 || lease in s.leases
    case DeleteRequest(key) => key in s.kv
    case TxnRequest(_) => true
    case GrantRequest(_, _, _) => true
    case RevokeRequest(id, _) => id in s.leases
    case KeepAliveRequest(id) => id in s.leases
    case TickRequest(_) => exists id :: EtcdLeases.Expired(s, id)
    case CampaignRequest(name, value, lease) => !Standing(s, name, value, lease)
    case ProclaimRequest(key, _) => key in s.kv
    case ResignRequest(key) => key in s.kv
    case _ => false
  }

  /** The revision an answer carries. */
  function RevisionOf(reply: Reply): Option<int> {
    match reply
    case TickReply => None
    case Waiting(_) => None
    case Failed(_) => None
    case _ => Some(reply.revision)
  }

  ghost function Moved(s: Store, rs: seq<Request>): nat {
    if rs == [] then 0
    else
      var o := Run(s, rs[..|rs| - 1]);
      Moved(s, rs[..|rs| - 1]) + if o.Ran? && Moves(o.store, rs[|rs| - 1]) then 1 else 0
  }

  lemma {:induction false} StepRevision(s: Store, r: Request)
    requires Legal(s, r) && Step(s, r).Done?
    ensures Step(s, r).store.revision == s.revision + if Moves(s, r) then 1 else 0
    ensures RevisionOf(Step(s, r).reply).Some? ==> RevisionOf(Step(s, r).reply).value == Step(s, r).store.revision
  {
    if r.TickRequest? { TickLeases(s, r.visits); }
  }

  /** The revision counts the requests that moved it, a transaction once however much it writes, and every
      answer that carries a revision carries that of its own moment. */
  lemma {:induction false} RevisionCounts(s: Store, rs: seq<Request>)
    requires LegalRun(s, rs) && Run(s, rs).Ran?
    ensures Run(s, rs).store.revision == s.revision + Moved(s, rs) && |Run(s, rs).replies| == |rs|
    ensures forall i :: 0 <= i < |rs| && RevisionOf(Run(s, rs).replies[i]).Some? ==>
      RevisionOf(Run(s, rs).replies[i]).value == s.revision + Moved(s, rs[..i + 1])
  {
    if rs != [] {
      var n := |rs| - 1;
      RevisionCounts(s, rs[..n]);
      StepRevision(Run(s, rs[..n]).store, rs[n]);
      forall i | 0 <= i < |rs| && RevisionOf(Run(s, rs).replies[i]).Some?
        ensures RevisionOf(Run(s, rs).replies[i]).value == s.revision + Moved(s, rs[..i + 1])
      {
        if i < n { assert rs[..n][..i + 1] == rs[..i + 1]; } else { assert rs[..i + 1] == rs; }
      }
    }
  }
}
