/** The lease index agrees with the store, and the exact inputs on which it stops agreeing. */
module EtcdLeases {
  import opened ByteStrings
  import opened EtcdStore
  import opened EtcdReplay
  import opened EtcdLeader

  /** Each lease's key set is exactly the keys of the store that carry its id; every id carried
      is a live lease; 0 (no lease) is never granted. */
  ghost predicate Indexed(s: Store) {
    && WellKeyed(s.kv)
    && 0 !in s.leases
    && (forall k :: k in s.kv && s.kv[k].lease != 0 ==> s.kv[k].lease in s.leases)
    && (forall id, k {:trigger k in s.leases[id].keys} :: id in s.leases ==>
         (k in s.leases[id].keys <==> k in s.kv && s.kv[k].lease == id))
  }

  // ---- the inputs that detach a key from its lease ---------------------------------------

  /** A put that keeps the key on the lease it already has: the key is inserted into the lease
      and then removed from it again. */
  predicate SameLeasePut(s: Store, key: Bytes, lease: LeaseId) {
    lease in s.leases && key in s.kv && s.kv[key].lease == lease
  }

  /** A campaign that overwrites a key held by another lease, without detaching it there. */
  predicate StealingCampaign(s: Store, name: Bytes, value: Bytes, lease: LeaseId) {
    var key := CampaignKey(name, lease);
    lease in s.leases && key in s.kv && s.kv[key].value != value && s.kv[key].lease != 0 && s.kv[key].lease != lease
  }

  /** The candidate already stands with this very value, so that a campaign writes nothing. */
  predicate Standing(s: Store, name: Bytes, value: Bytes, lease: LeaseId) {
    var key := CampaignKey(name, lease);
    key in s.kv && s.kv[key].value == value
  }

  lemma PutIndex(s: Store, key: Bytes, value: Bytes, lease: LeaseId, wantPrev: bool)
    requires Indexed(s)
    ensures PutStep(s, key, value, lease, wantPrev).Done?
    ensures Indexed(PutStep(s, key, value, lease, wantPrev).store) <==> !SameLeasePut(s, key, lease)
  {
    var o := PutStep(s, key, value, lease, wantPrev);
    if SameLeasePut(s, key, lease) {
      assert key !in o.store.leases[lease].keys && o.store.kv[key].lease == lease;
    }
  }

  lemma DeleteIndex(s: Store, key: Bytes)
    requires Indexed(s)
    ensures DeleteStep(s, key).Done? && Indexed(DeleteStep(s, key).store)
  {
  }

  lemma KeyUnderName(s: Store, name: Bytes, lease: LeaseId)
    requires WellKeyed(s.kv) && Rangeable(name) && CampaignKey(name, lease) in s.kv
    ensures Leader(s.kv, name).Some?
  {
    var key := CampaignKey(name, lease);
    assert name <= key;
    LeaderSpec(s.kv, name);
  }

  /** The store with a candidate's record written over whatever its key held. */
  function WithCandidate(s: Store, name: Bytes, value: Bytes, lease: LeaseId): Store
    requires lease in s.leases
  {
    var key := CampaignKey(name, lease);
    var record := KeyValue(key, value, lease, s.revision + 1, s.revision + 1);
    Store(s.revision + 1, s.kv[key := record], Attach(s.leases, lease, key))
  }

  lemma CandidacyIndex(s: Store, name: Bytes, value: Bytes, lease: LeaseId)
    requires Indexed(s) && lease in s.leases && !Standing(s, name, value, lease)
    ensures Indexed(WithCandidate(s, name, value, lease)) <==> !StealingCampaign(s, name, value, lease)
  {
    var key := CampaignKey(name, lease);
    var t := WithCandidate(s, name, value, lease);
    if StealingCampaign(s, name, value, lease) {
      assert key in t.leases[s.kv[key].lease].keys;
    }
  }

  lemma VerdictExact(s: Store, name: Bytes, lease: LeaseId, events: seq<Event>)
    requires WellKeyed(s.kv) && CampaignKey(name, lease) in s.kv
    ensures var o := CampaignVerdict(s, name, CampaignKey(name, lease), lease, events);
      (o.Panic? <==> !Rangeable(name)) && (o.Done? ==> o.store == s)
  {
    if Rangeable(name) { KeyUnderName(s, name, lease); }
  }

  /** The store a campaign leaves. */
  lemma CampaignStore(s: Store, name: Bytes, value: Bytes, lease: LeaseId)
    requires WellKeyed(s.kv)
    ensures var o := CampaignStep(s, name, value, lease);
      && (o.Panic? <==> !Rangeable(name) && (lease in s.leases || Standing(s, name, value, lease)))
      && (o.Done? ==> o.store == if Standing(s, name, value, lease) then s
                                 else if lease in s.leases then WithCandidate(s, name, value, lease)
                                 else s.(revision := s.revision + 1))
  {
    if Standing(s, name, value, lease) {
      VerdictExact(s, name, lease, []);
    } else if lease in s.leases {
      var t := WithCandidate(s, name, value, lease);
      VerdictExact(t, name, lease, [Put(t.kv[CampaignKey(name, lease)])]);
    }
  }

  lemma CampaignIndex(s: Store, name: Bytes, value: Bytes, lease: LeaseId)
    requires Indexed(s)
    ensures var o := CampaignStep(s, name, value, lease);
      && (o.Panic? <==> !Rangeable(name) && (lease in s.leases || Standing(s, name, value, lease)))
      && (o.Done? ==> (Indexed(o.store) <==> !StealingCampaign(s, name, value, lease)))
  {
    CampaignStore(s, name, value, lease);
    if lease in s.leases && !Standing(s, name, value, lease) { CandidacyIndex(s, name, value, lease); }
  }

  // ---- revocation and expiry -------------------------------------------------------------

  lemma {:induction false} RemoveAllExact(kv: map<Bytes, KeyValue>, order: seq<Bytes>)
    requires forall i, j :: 0 <= i < j < |order| ==> order[i] != order[j]
    requires forall k :: k in order ==> k in kv
    ensures RemoveAll(kv, order).Removed?
    ensures RemoveAll(kv, order).kv == map k | k in kv && k !in order :: kv[k]
  {
    if order != [] {
      var n := |order| - 1;
      assert order == order[..n] + [order[n]];
      RemoveAllExact(kv, order[..n]);
    }
  }

  /** A revoked lease takes exactly its own keys with it, whatever order they are visited in. */
  lemma RevokeExact(s: Store, id: LeaseId, order: seq<Bytes>)
    requires Indexed(s) && Legal(s, RevokeRequest(id, order))
    ensures RevokeStep(s, id, order).Done? && Indexed(RevokeStep(s, id, order).store)
    ensures id in s.leases ==>
      RevokeStep(s, id, order).store ==
        Store(s.revision + 1, map k | k in s.kv && s.kv[k].lease != id :: s.kv[k], s.leases - {id})
  {
    if id in s.leases {
      RemoveAllExact(s.kv, order);
    }
  }

  /** The lease is visited and this second is its last. */
  predicate Dies(s: Store, visits: seq<Visit>, id: LeaseId) {
    id in s.leases && s.leases[id].ttl <= 1 && Visited(visits, id)
  }

  function LiveKeys(s: Store, visits: seq<Visit>): map<Bytes, KeyValue> {
    map k | k in s.kv && !Dies(s, visits, s.kv[k].lease) :: s.kv[k]
  }

  function LiveLeases(s: Store, visits: seq<Visit>): map<LeaseId, Lease> {
    map id | id in s.leases && !Dies(s, visits, id) ::
      if Visited(visits, id) then s.leases[id].(ttl := s.leases[id].ttl - 1) else s.leases[id]
  }

  lemma VisitedMore(visits: seq<Visit>, id: LeaseId)
    requires visits != []
    ensures Visited(visits, id) <==> Visited(visits[..|visits| - 1], id) || id == visits[|visits| - 1].id
  {
    var n := |visits| - 1;
    assert visits == visits[..n] + [visits[n]];
    if Visited(visits[..n], id) { var w :| w in visits[..n] && w.id == id; assert w in visits; }
    assert visits[n] in visits;
  }

  /** The effect of one more visit on the surviving leases and keys. */
  lemma LiveMore(s: Store, visits: seq<Visit>)
    requires visits != []
    requires var n := |visits| - 1; visits[n].id in s.leases && !Visited(visits[..n], visits[n].id)
    ensures var n := |visits| - 1; var id := visits[n].id; var l := s.leases[id];
      && LiveLeases(s, visits) == (if l.ttl <= 1 then LiveLeases(s, visits[..n]) - {id}
                                   else LiveLeases(s, visits[..n])[id := l.(ttl := l.ttl - 1)])
      && LiveKeys(s, visits) ==
           (if l.ttl <= 1 then map k | k in LiveKeys(s, visits[..n]) && s.kv[k].lease != id :: s.kv[k]
            else LiveKeys(s, visits[..n]))
  {
    forall id ensures Visited(visits, id) <==> Visited(visits[..|visits| - 1], id) || id == visits[|visits| - 1].id {
      VisitedMore(visits, id);
    }
  }

  /** The keys of a dying lease, removed from what earlier visits left. */
  lemma DeathExact(s: Store, live: map<Bytes, KeyValue>, v: Visit)
    requires Indexed(s) && v.id in s.leases && Enumerates(v.keys, s.leases[v.id].keys)
    requires forall k :: k in live ==> k in s.kv && live[k] == s.kv[k]
    requires forall k :: k in s.kv && s.kv[k].lease == v.id ==> k in live
    ensures RemoveAll(live, v.keys).Removed?
    ensures RemoveAll(live, v.keys).kv == map k | k in live && s.kv[k].lease != v.id :: s.kv[k]
  {
    forall k ensures k in v.keys <==> k in s.kv && s.kv[k].lease == v.id {
      assert k in v.keys <==> k in s.leases[v.id].keys;
    }
    RemoveAllExact(live, v.keys);
  }

  lemma VisitableInit(s: Store, visits: seq<Visit>)
    requires visits != [] && Visitable(s, visits)
    ensures var n := |visits| - 1;
      && Visitable(s, visits[..n]) && !Visited(visits[..n], visits[n].id)
      && visits[n].id in s.leases && Enumerates(visits[n].keys, s.leases[visits[n].id].keys)
  {
    var n := |visits| - 1;
    assert visits[n] in visits;
  }

  lemma {:induction false} PassExact(s: Store, visits: seq<Visit>)
    requires Indexed(s) && Visitable(s, visits)
    ensures ExpiryPass(s, visits).Passed?
    ensures ExpiryPass(s, visits).kv == LiveKeys(s, visits)
    ensures ExpiryPass(s, visits).leases == LiveLeases(s, visits)
  {
    if visits == [] {
      assert LiveKeys(s, visits) == s.kv && LiveLeases(s, visits) == s.leases;
    } else {
      var n := |visits| - 1;
      var v := visits[n];
      VisitableInit(s, visits);
      PassExact(s, visits[..n]);
      LiveMore(s, visits);
      if s.leases[v.id].ttl <= 1 {
        DeathExact(s, LiveKeys(s, visits[..n]), v);
      }
    }
  }

  predicate Expired(s: Store, id: LeaseId) {
    id in s.leases && s.leases[id].ttl <= 1
  }

  function AgedLeases(s: Store): map<LeaseId, Lease> {
    map id | id in s.leases && !Expired(s, id) :: s.leases[id].(ttl := s.leases[id].ttl - 1)
  }

  /** One second later: every lease with one second left is gone together with exactly its keys,
      every other lease has lost one second, and the revision has moved by one exactly when some
      lease died. */
  ghost function OneSecondLater(s: Store): Store {
    Store(s.revision + if exists id :: Expired(s, id) then 1 else 0,
          map k | k in s.kv && !Expired(s, s.kv[k].lease) :: s.kv[k],
          AgedLeases(s))
  }

  lemma AgedIndexed(s: Store)
    requires Indexed(s)
    ensures Indexed(OneSecondLater(s))
  {
    var t := OneSecondLater(s);
    forall id, k | id in t.leases ensures k in t.leases[id].keys <==> k in t.kv && t.kv[k].lease == id {
      assert k in t.leases[id].keys <==> k in s.leases[id].keys;
    }
  }

  lemma AllVisitedIsAged(s: Store, visits: seq<Visit>)
    requires AllVisited(s, visits)
    ensures LiveLeases(s, visits) == AgedLeases(s)
    ensures LiveKeys(s, visits) == OneSecondLater(s).kv
  {
    forall id ensures Dies(s, visits, id) <==> Expired(s, id) {}
  }

  /** The leases left by an expiry pass, whether or not the index agrees with the store. */
  lemma {:induction false} PassLeases(s: Store, visits: seq<Visit>)
    requires Visitable(s, visits) && ExpiryPass(s, visits).Passed?
    ensures ExpiryPass(s, visits).leases == LiveLeases(s, visits)
  {
    if visits == [] {
      assert LiveLeases(s, visits) == s.leases;
    } else {
      VisitableInit(s, visits);
      PassLeases(s, visits[..|visits| - 1]);
      LiveMore(s, visits);
    }
  }

  /** A tick that does not panic ages every lease and moves the revision by one exactly when some
      lease dies; the index plays no part in this. */
  lemma TickLeases(s: Store, visits: seq<Visit>)
    requires LegalVisits(s, visits) && TickStep(s, visits).Done?
    ensures TickStep(s, visits).store.leases == AgedLeases(s)
    ensures TickStep(s, visits).store.revision == s.revision + if exists id :: Expired(s, id) then 1 else 0
  {
    PassLeases(s, visits);
    AllVisitedIsAged(s, visits);
    ExpiryCount(s, AgedLeases(s));
  }

  lemma TickExact(s: Store, visits: seq<Visit>)
    requires Indexed(s) && LegalVisits(s, visits)
    ensures TickStep(s, visits).Done? && TickStep(s, visits).store == OneSecondLater(s)
    ensures Indexed(OneSecondLater(s))
  {
    AgedIndexed(s);
    PassExact(s, visits);
    AllVisitedIsAged(s, visits);
    ExpiryCount(s, AgedLeases(s));
  }

  lemma ExpiryCount(s: Store, after: map<LeaseId, Lease>)
    requires after.Keys == set id | id in s.leases && !Expired(s, id)
    ensures |after| != |s.leases| <==> exists id :: Expired(s, id)
  {
    if id :| Expired(s, id) {
      ProperSubset(after.Keys, s.leases.Keys, id);
    } else {
      assert after.Keys == s.leases.Keys;
    }
    assert |after| == |after.Keys| && |s.leases| == |s.leases.Keys|;
  }

  lemma ProperSubset<T>(a: set<T>, b: set<T>, x: T)
    requires a <= b && x in b && x !in a
    ensures |a| < |b|
  {
    assert |b| == |a| + |b - a| by { assert b == a + (b - a); }
    assert x in b - a;
  }

  // ---- exactly when revocation and expiry meet a missing key -----------------------------

  /** The keys of a lease about to die are all stored. */
  ghost predicate KeysStored(s: Store, id: LeaseId) {
    id in s.leases ==> s.leases[id].keys <= s.kv.Keys
  }

  lemma {:induction false} RemoveAllIff(kv: map<Bytes, KeyValue>, order: seq<Bytes>)
    requires forall i, j :: 0 <= i < j < |order| ==> order[i] != order[j]
    ensures RemoveAll(kv, order).Removed? <==> forall k :: k in order ==> k in kv
    ensures RemoveAll(kv, order).Removed? ==> RemoveAll(kv, order).kv == kv - set k | k in order
  {
    if k :| k in order && k !in kv { RemoveAllMissing(kv, order, k); } else { RemoveAllExact(kv, order); }
  }

  /** Whether or not the index agrees, revoking fails its expectation if and only if a key of the lease
      is not stored; otherwise just these keys go with the lease. */
  lemma RevokeDoneIff(s: Store, id: LeaseId, order: seq<Bytes>)
    requires Legal(s, RevokeRequest(id, order))
    ensures RevokeStep(s, id, order).Done? <==> KeysStored(s, id)
    ensures id in s.leases && KeysStored(s, id) ==>
      RevokeStep(s, id, order).store == Store(s.revision + 1, s.kv - s.leases[id].keys, s.leases - {id})
  {
    if id in s.leases { EnumeratedRemoval(s.kv, order, s.leases[id].keys); }
  }

  /** The keys that the dying leases take along. */
  ghost function Taken(s: Store, visits: seq<Visit>): set<Bytes> {
    set id, k | id in s.leases && Dies(s, visits, id) && k in s.leases[id].keys :: k
  }

  /** The leases that die in some visits hold stored keys only, and share none. */
  ghost predicate ReadyFor(s: Store, visits: seq<Visit>) {
    && (forall id :: Dies(s, visits, id) ==> s.leases[id].keys <= s.kv.Keys)
    && (forall a, b :: Dies(s, visits, a) && Dies(s, visits, b) && a != b ==> s.leases[a].keys !! s.leases[b].keys)
  }

  lemma {:induction false} PassDoneIff(s: Store, visits: seq<Visit>)
    requires Visitable(s, visits)
    ensures ExpiryPass(s, visits).Passed? <==> ReadyFor(s, visits)
    ensures ExpiryPass(s, visits).Passed? ==> ExpiryPass(s, visits).kv == s.kv - Taken(s, visits)
  {
    if visits == [] {
      assert Taken(s, visits) == {};
    } else {
      var init, v := visits[..|visits| - 1], visits[|visits| - 1];
      VisitableInit(s, visits);
      PassDoneIff(s, init);
      forall id ensures Visited(visits, id) <==> Visited(init, id) || id == v.id { VisitedMore(visits, id); }
      if ExpiryPass(s, init).Passed? { PassLeases(s, init); }
      if s.leases[v.id].ttl > 1 {
        LifeReadyIff(s, init, visits, v);
      } else {
        DeathReadyIff(s, init, visits, v);
        EnumeratedRemoval(s.kv - Taken(s, init), v.keys, s.leases[v.id].keys);
      }
    }
  }

  lemma EnumeratedRemoval(kv: map<Bytes, KeyValue>, order: seq<Bytes>, keys: set<Bytes>)
    requires Enumerates(order, keys)
    ensures RemoveAll(kv, order).Removed? <==> keys <= kv.Keys
    ensures RemoveAll(kv, order).Removed? ==> RemoveAll(kv, order).kv == kv - keys
  {
    RemoveAllIff(kv, order);
    assert (set k | k in order) == keys;
  }

  lemma LifeReadyIff(s: Store, init: seq<Visit>, visits: seq<Visit>, v: Visit)
    requires v.id in s.leases && s.leases[v.id].ttl > 1
    requires forall id :: Visited(visits, id) <==> Visited(init, id) || id == v.id
    ensures Taken(s, visits) == Taken(s, init) && (ReadyFor(s, visits) <==> ReadyFor(s, init))
  {
    assert forall id :: Dies(s, visits, id) <==> Dies(s, init, id);
  }

  /** One more dying lease is ready if its keys are stored and none has been taken before. */
  lemma DeathReadyIff(s: Store, init: seq<Visit>, visits: seq<Visit>, v: Visit)
    requires v.id in s.leases && s.leases[v.id].ttl <= 1 && !Visited(init, v.id)
    requires forall id :: Visited(visits, id) <==> Visited(init, id) || id == v.id
    ensures Taken(s, visits) == Taken(s, init) + s.leases[v.id].keys
    ensures ReadyFor(s, visits) <==> ReadyFor(s, init) && s.leases[v.id].keys <= s.kv.Keys - Taken(s, init)
  {
    assert forall id :: Dies(s, visits, id) <==> Dies(s, init, id) || id == v.id;
    if ReadyFor(s, visits) {
      forall id | Dies(s, init, id) ensures s.leases[id].keys !! s.leases[v.id].keys {
        assert Dies(s, visits, id) && Dies(s, visits, v.id);
      }
    }
  }

  /** No visiting order of an expiry pass meets a missing key. */
  ghost predicate ExpiryReady(s: Store) {
    && (forall id :: id in s.leases && s.leases[id].ttl <= 1 ==> KeysStored(s, id))
    && (forall a, b :: a in s.leases && b in s.leases && a != b && s.leases[a].ttl <= 1 && s.leases[b].ttl <= 1 ==>
          s.leases[a].keys !! s.leases[b].keys)
  }

  ghost function ExpiredKeys(s: Store): set<Bytes> {
    set id, k | id in s.leases && Expired(s, id) && k in s.leases[id].keys :: k
  }

  lemma AllVisitedIsExpired(s: Store, visits: seq<Visit>)
    requires AllVisited(s, visits)
    ensures Taken(s, visits) == ExpiredKeys(s) && (ReadyFor(s, visits) <==> ExpiryReady(s))
  {
    assert forall id :: Dies(s, visits, id) <==> Expired(s, id);
    if ReadyFor(s, visits) {
      forall id | Expired(s, id) ensures KeysStored(s, id) { assert Dies(s, visits, id); }
      forall a, b | Expired(s, a) && Expired(s, b) && a != b ensures s.leases[a].keys !! s.leases[b].keys {
        assert Dies(s, visits, a) && Dies(s, visits, b);
      }
    }
    if ExpiryReady(s) {
      forall id | Dies(s, visits, id) ensures s.leases[id].keys <= s.kv.Keys { assert KeysStored(s, id); }
    }
  }

  /** Whether or not the index agrees, a tick fails its expectation if and only if an expiring lease
      holds a key that is not stored, or shares one with another; otherwise just their keys go. */
  lemma TickDoneIff(s: Store, visits: seq<Visit>)
    requires LegalVisits(s, visits)
    ensures TickStep(s, visits).Done? <==> ExpiryReady(s)
    ensures TickStep(s, visits).Done? ==> TickStep(s, visits).store.kv == s.kv - ExpiredKeys(s)
  {
    PassDoneIff(s, visits);
    AllVisitedIsExpired(s, visits);
  }

  /** While the lease index agrees with the store, revoking and expiring meet no missing key. */
  lemma IndexedIsReady(s: Store, id: LeaseId)
    requires Indexed(s)
    ensures KeysStored(s, id) && ExpiryReady(s)
  {
    forall x, k | x in s.leases && k in s.leases[x].keys ensures k in s.kv && s.kv[k].lease == x {}
  }

  // ---- single requests: exactly when they panic, exactly when they break the index -------

  /** The inputs on which the server panics although its index is intact. */
  predicate PanicInput(s: Store, r: Request) {
    match r
    case GetRequest(key, prefix) => prefix && !Rangeable(key)
    case GrantRequest(_, id, _) => id != 0 && id in s.leases
    case CampaignRequest(name, value, lease) =>
      !Rangeable(name) && (lease in s.leases || Standing(s, name, value, lease))
    case LeaderRequest(name) => !Rangeable(name)
    case ObserveRequest(name) => !Rangeable(name)
    case ResignRequest(key) => key in s.kv && s.kv[key].lease == 0
    case _ => false
  }

  predicate DetachingInput(s: Store, r: Request) {
    match r
    case PutRequest(key, _, lease, _) => SameLeasePut(s, key, lease)
    case CampaignRequest(name, value, lease) => StealingCampaign(s, name, value, lease)
    case _ => false
  }

  lemma {:induction false} StepIndex(s: Store, r: Request)
    requires Indexed(s) && Legal(s, r) && !r.TxnRequest?
    ensures Step(s, r).Panic? <==> PanicInput(s, r)
    ensures Step(s, r).Done? ==> (Indexed(Step(s, r).store) <==> !DetachingInput(s, r))
  {
    match r
    case PutRequest(key, value, lease, wantPrev) => PutIndex(s, key, value, lease, wantPrev);
    case DeleteRequest(key) => DeleteIndex(s, key);
    case RevokeRequest(id, order) => RevokeExact(s, id, order);
    case TickRequest(visits) => TickExact(s, visits);
    case CampaignRequest(name, value, lease) => CampaignIndex(s, name, value, lease);
    case _ =>
  }

  // ---- the guards are needed -------------------------------------------------------------

  /** After a put that keeps the key on its lease, revoking the lease (in any order) leaves the
      key behind with a dead lease id, and the next delete of the key panics. */
  lemma SameLeasePutPanicsLater(s: Store, key: Bytes, v: Bytes, lease: LeaseId, wantPrev: bool, order: seq<Bytes>)
    requires Indexed(s) && SameLeasePut(s, key, lease)
    requires Legal(PutStep(s, key, v, lease, wantPrev).store, RevokeRequest(lease, order))
    ensures var t := PutStep(s, key, v, lease, wantPrev).store; var o := RevokeStep(t, lease, order);
      o.Done? && key in o.store.kv && DeleteStep(o.store, key).Panic?
  {
    var t := PutStep(s, key, v, lease, wantPrev).store;
    forall k | k in order ensures k in t.kv { assert k in s.leases[lease].keys; }
    assert key !in t.leases[lease].keys;
    RemoveAllExact(t.kv, order);
  }

  lemma {:induction false} RemoveAllMissing(kv: map<Bytes, KeyValue>, order: seq<Bytes>, key: Bytes)
    requires key !in kv
    ensures RemoveAll(kv, order).Removed? ==> key !in RemoveAll(kv, order).kv && key !in order
  {
    if order != [] {
      RemoveAllMissing(kv, order[..|order| - 1], key);
      assert order == order[..|order| - 1] + [order[|order| - 1]];
    }
  }

  /** After a campaign that takes a key from another lease, revoking that lease removes the
      candidate's key, and revoking the candidate's own lease then panics. */
  lemma StealingCampaignPanicsLater(s: Store, name: Bytes, v: Bytes, lease: LeaseId, first: seq<Bytes>,
                                    second: seq<Bytes>)
    requires Indexed(s) && Rangeable(name) && StealingCampaign(s, name, v, lease)
    requires CampaignStep(s, name, v, lease).Done?
    requires var t := CampaignStep(s, name, v, lease).store; var victim := s.kv[CampaignKey(name, lease)].lease;
      && Legal(t, RevokeRequest(victim, first))
      && (RevokeStep(t, victim, first).Done? ==>
           Legal(RevokeStep(t, victim, first).store, RevokeRequest(lease, second)))
    ensures var t := CampaignStep(s, name, v, lease).store; var victim := s.kv[CampaignKey(name, lease)].lease;
      var o := RevokeStep(t, victim, first);
      o.Done? && CampaignKey(name, lease) !in o.store.kv && RevokeStep(o.store, lease, second).Panic?
  {
    var key := CampaignKey(name, lease);
    var t := CampaignStep(s, name, v, lease).store;
    var victim := s.kv[key].lease;
    assert t.leases[victim].keys == s.leases[victim].keys;
    forall k | k in first ensures k in t.kv { assert k in s.leases[victim].keys; }
    assert key in s.leases[victim].keys;
    RemoveAllExact(t.kv, first);
    var u := RevokeStep(t, victim, first).store;
    assert key in u.leases[lease].keys;
    RemoveAllMissing(u.kv, second, key);
  }
}
