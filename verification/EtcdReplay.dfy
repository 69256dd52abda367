/** The event stream determines the key-value store: replaying what was published, in order,
    over the old map gives the new map, for every request, every run, and every order in which
    keys of dying leases are visited. */
module EtcdReplay {
  import opened ByteStrings
  import opened EtcdStore

  predicate WellKeyed(kv: map<Bytes, KeyValue>) {
    forall k :: k in kv ==> kv[k].key == k
  }

  function Apply(kv: map<Bytes, KeyValue>, e: Event): map<Bytes, KeyValue> {
    if e.Put? then kv[e.kv.key := e.kv] else kv - {e.kv.key}
  }

  /** What a client does that keeps a copy of the map from the events alone. */
  function Replay(kv: map<Bytes, KeyValue>, events: seq<Event>): map<Bytes, KeyValue> {
    if events == [] then kv
    else Apply(Replay(kv, events[..|events| - 1]), events[|events| - 1])
  }

  lemma {:induction false} ReplayConcat(kv: map<Bytes, KeyValue>, a: seq<Event>, b: seq<Event>)
    ensures Replay(kv, a + b) == Replay(Replay(kv, a), b)
  {
    if b == [] {
      assert a + b == a;
    } else {
      var n := |b| - 1;
      assert (a + b)[..|a + b| - 1] == a + b[..n];
      ReplayConcat(kv, a, b[..n]);
    }
  }

  lemma ReplayOne(kv: map<Bytes, KeyValue>, e: Event)
    ensures Replay(kv, [e]) == Apply(kv, e)
  {
    assert [e][..0] == [];
  }

  lemma {:induction false} RemovalReplay(kv: map<Bytes, KeyValue>, order: seq<Bytes>)
    requires WellKeyed(kv)
    requires RemoveAll(kv, order).Removed?
    ensures WellKeyed(RemoveAll(kv, order).kv)
    ensures Replay(kv, RemoveAll(kv, order).events) == RemoveAll(kv, order).kv
  {
    if order != [] {
      var n := |order| - 1;
      RemovalReplay(kv, order[..n]);
      var r := RemoveAll(kv, order[..n]);
      var e := Delete(r.kv[order[n]]);
      ReplayConcat(kv, r.events, [e]);
      ReplayOne(r.kv, e);
    }
  }

  lemma {:induction false} PassReplay(s: Store, visits: seq<Visit>)
    requires WellKeyed(s.kv)
    requires ExpiryPass(s, visits).Passed?
    ensures WellKeyed(ExpiryPass(s, visits).kv)
    ensures Replay(s.kv, ExpiryPass(s, visits).events) == ExpiryPass(s, visits).kv
  {
    if visits != [] {
      var n := |visits| - 1;
      PassReplay(s, visits[..n]);
      var p := ExpiryPass(s, visits[..n]);
      if p.leases[visits[n].id].ttl - 1 <= 0 {
        RemovalReplay(p.kv, visits[n].keys);
        ReplayConcat(s.kv, p.events, RemoveAll(p.kv, visits[n].keys).events);
      }
    }
  }

  /** What a finished request owes: its events replay to its new map. */
  ghost predicate Replays(s: Store, o: Outcome) {
    o.Done? ==> WellKeyed(o.store.kv) && Replay(s.kv, o.events) == o.store.kv
  }

  lemma PutReplays(s: Store, key: Bytes, value: Bytes, lease: LeaseId, wantPrev: bool)
    requires WellKeyed(s.kv)
    ensures Replays(s, PutStep(s, key, value, lease, wantPrev))
  {
    var o := PutStep(s, key, value, lease, wantPrev);
    if o.Done? && o.events != [] { ReplayOne(s.kv, o.events[0]); }
  }

  lemma DeleteReplays(s: Store, key: Bytes)
    requires WellKeyed(s.kv)
    ensures Replays(s, DeleteStep(s, key))
  {
    if key in s.kv { ReplayOne(s.kv, Delete(s.kv[key])); }
  }

  lemma {:induction false} OpsReplay(s: Store, ops: seq<TxnOp>)
    requires WellKeyed(s.kv)
    requires OpsStep(s, ops).OpsDone?
    ensures WellKeyed(OpsStep(s, ops).store.kv)
    ensures Replay(s.kv, OpsStep(s, ops).events) == OpsStep(s, ops).store.kv
    decreases ops
  {
    if ops != [] {
      var n := |ops| - 1;
      OpsReplay(s, ops[..n]);
      var p := OpsStep(s, ops[..n]);
      OpReplays(p.store, ops[n]);
      ReplayConcat(s.kv, p.events, OpStep(p.store, ops[n]).events);
    }
  }

  lemma {:induction false} OpReplays(s: Store, op: TxnOp)
    requires WellKeyed(s.kv)
    ensures Replays(s, OpStep(s, op))
    decreases op
  {
    match op
    case PutOp(key, value, lease, wantPrev) => PutReplays(s, key, value, lease, wantPrev);
    case GetOp(key, prefix) =>
    case DeleteOp(key) => DeleteReplays(s, key);
    case NestedOp(txn) => TxnReplays(s, txn);
  }

  lemma {:induction false} TxnReplays(s: Store, txn: Txn)
    requires WellKeyed(s.kv)
    ensures Replays(s, TxnStep(s, txn))
    decreases txn
  {
    var ops := Chosen(s.kv, txn);
    if OpsStep(s, ops).OpsDone? { OpsReplay(s, ops); }
  }

  lemma CampaignReplays(s: Store, name: Bytes, value: Bytes, lease: LeaseId)
    requires WellKeyed(s.kv)
    ensures Replays(s, CampaignStep(s, name, value, lease))
  {
    var o := CampaignStep(s, name, value, lease);
    if o.Done? && o.events != [] { ReplayOne(s.kv, o.events[0]); }
  }

  lemma ProclaimReplays(s: Store, key: Bytes, value: Bytes)
    requires WellKeyed(s.kv)
    ensures Replays(s, ProclaimStep(s, key, value))
  {
    var o := ProclaimStep(s, key, value);
    if o.events != [] { ReplayOne(s.kv, o.events[0]); }
  }

  lemma ResignReplays(s: Store, key: Bytes)
    requires WellKeyed(s.kv)
    ensures Replays(s, ResignStep(s, key))
  {
    if key in s.kv { ReplayOne(s.kv, Delete(s.kv[key])); }
  }

  /** One request: no guard is needed, and the visiting order may even be an illegal one. */
  lemma {:induction false} StepReplays(s: Store, r: Request)
    requires WellKeyed(s.kv)
    ensures Replays(s, Step(s, r))
  {
    match r
    case PutRequest(key, value, lease, wantPrev) => PutReplays(s, key, value, lease, wantPrev);
    case DeleteRequest(key) => DeleteReplays(s, key);
    case TxnRequest(txn) => TxnReplays(s, txn);
    case RevokeRequest(id, order) => if RemoveAll(s.kv, order).Removed? { RemovalReplay(s.kv, order); }
    case TickRequest(visits) => if ExpiryPass(s, visits).Passed? { PassReplay(s, visits); }
    case CampaignRequest(name, value, lease) => CampaignReplays(s, name, value, lease);
    case ProclaimRequest(key, value) => ProclaimReplays(s, key, value);
    case ResignRequest(key) => ResignReplays(s, key);
    case _ =>
  }

  /** Every run: the concatenated event stream rebuilds the final map. */
  lemma {:induction false} RunReplays(s: Store, rs: seq<Request>)
    requires WellKeyed(s.kv)
    requires Run(s, rs).Ran?
    ensures WellKeyed(Run(s, rs).store.kv)
    ensures Replay(s.kv, Run(s, rs).events) == Run(s, rs).store.kv
  {
    if rs != [] {
      var n := |rs| - 1;
      RunReplays(s, rs[..n]);
      var p := Run(s, rs[..n]);
      StepReplays(p.store, rs[n]);
      ReplayConcat(s.kv, p.events, Step(p.store, rs[n]).events);
    }
  }

  /** Keys that no event names keep their record, or stay absent. */
  lemma {:induction false} UntouchedKey(kv: map<Bytes, KeyValue>, events: seq<Event>, key: Bytes)
    requires forall e :: e in events ==> e.kv.key != key
    ensures Lookup(Replay(kv, events), key) == Lookup(kv, key)
  {
    if events != [] {
      UntouchedKey(kv, events[..|events| - 1], key);
    }
  }
}
