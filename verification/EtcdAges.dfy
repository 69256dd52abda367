/** How records age: over any run, from any store, a key is kept with its create revision or created
    later than the start.  No guard is needed for that, and election safety rests on it. */
module EtcdAges {
  import opened ByteStrings
  import opened EtcdStore

  ghost predicate Submap(a: map<Bytes, KeyValue>, b: map<Bytes, KeyValue>) {
    forall k :: k in a ==> k in b && a[k] == b[k]
  }

  lemma {:induction false} RemoveAllSubmap(kv: map<Bytes, KeyValue>, order: seq<Bytes>)
    requires RemoveAll(kv, order).Removed?
    ensures Submap(RemoveAll(kv, order).kv, kv)
  {
    if order != [] { RemoveAllSubmap(kv, order[..|order| - 1]); }
  }

  lemma {:induction false} PassSubmap(s: Store, visits: seq<Visit>)
    requires ExpiryPass(s, visits).Passed?
    ensures Submap(ExpiryPass(s, visits).kv, s.kv)
  {
    if visits != [] {
      var n := |visits| - 1;
      PassSubmap(s, visits[..n]);
      var p := ExpiryPass(s, visits[..n]);
      if p.leases[visits[n].id].ttl - 1 <= 0 { RemoveAllSubmap(p.kv, visits[n].keys); }
    }
  }

  /** From s to t, keys were kept with their create revision or created anew with a later one. */
  ghost predicate Ages(s: Store, t: Store) {
    && s.revision <= t.revision
    && forall k :: k in t.kv ==> (k in s.kv && t.kv[k].created == s.kv[k].created) || s.revision < t.kv[k].created
  }

  lemma AgesTransitive(s: Store, t: Store, u: Store)
    requires Ages(s, t) && Ages(t, u)
    ensures Ages(s, u)
  {
    forall k | k in u.kv ensures (k in s.kv && u.kv[k].created == s.kv[k].created) || s.revision < u.kv[k].created {
      if k in t.kv && u.kv[k].created == t.kv[k].created {}
    }
  }

  /** Moreover, a key of s that t has re-created is younger than any first write after s, and a key was
      removed only if the revision has moved. */
  ghost predicate AgesTwice(s: Store, t: Store) {
    && Ages(s, t)
    && (forall k :: k in t.kv && k in s.kv && t.kv[k].created != s.kv[k].created ==> s.revision + 1 < t.kv[k].created)
    && (forall k :: k in s.kv && k !in t.kv ==> s.revision < t.revision)
  }

  lemma AgesTwiceTransitive(s: Store, t: Store, u: Store)
    requires AgesTwice(s, t) && AgesTwice(t, u)
    ensures AgesTwice(s, u)
  {
    AgesTransitive(s, t, u);
    forall k | k in u.kv && k in s.kv && u.kv[k].created != s.kv[k].created ensures s.revision + 1 < u.kv[k].created {
      if k in t.kv && u.kv[k].created == t.kv[k].created {}
    }
  }

  lemma {:induction false} OpsAge(s: Store, ops: seq<TxnOp>)
    requires OpsStep(s, ops).OpsDone?
    ensures AgesTwice(s, OpsStep(s, ops).store)
    decreases ops
  {
    if ops != [] {
      var n := |ops| - 1;
      OpsAge(s, ops[..n]);
      OpAges(OpsStep(s, ops[..n]).store, ops[n]);
      AgesTwiceTransitive(s, OpsStep(s, ops[..n]).store, OpsStep(s, ops).store);
    }
  }

  lemma {:induction false} OpAges(s: Store, op: TxnOp)
    requires OpStep(s, op).Done?
    ensures AgesTwice(s, OpStep(s, op).store)
    decreases op
  {
    match op
    case PutOp(_, _, _, _) =>
    case GetOp(_, _) =>
    case DeleteOp(_) =>
    case NestedOp(txn) => OpsAge(s, Chosen(s.kv, txn));
  }

  /** Whether some first request can create the key: it is new, or a campaign can re-create it. */
  ghost predicate CanCreate(s: Store, key: Bytes) {
    key !in s.kv || exists n, id :: id in s.leases && Rangeable(n) && key == CampaignKey(n, id)
  }

  lemma CampaignAges(s: Store, name: Bytes, value: Bytes, lease: LeaseId)
    requires CampaignStep(s, name, value, lease).Done?
    ensures var t := CampaignStep(s, name, value, lease).store;
      && Ages(s, t)
      && forall k :: k in t.kv && t.kv[k].created == s.revision + 1 ==>
           (k in s.kv && s.kv[k].created == s.revision + 1) || CanCreate(s, k)
  {
    var key := CampaignKey(name, lease);
    if CampaignStep(s, name, value, lease).events != [] { assert CanCreate(s, key); }
  }

  /** One request: keys only age, and a key dated by the very next revision was one it could create. */
  lemma {:induction false} StepAges(s: Store, r: Request)
    requires Step(s, r).Done?
    ensures Ages(s, Step(s, r).store)
    ensures forall k :: k in Step(s, r).store.kv && Step(s, r).store.kv[k].created == s.revision + 1 ==>
      (k in s.kv && s.kv[k].created == s.revision + 1) || CanCreate(s, k)
  {
    match r
    case TxnRequest(txn) => OpAges(s, NestedOp(txn));
    case RevokeRequest(id, order) => if id in s.leases { RemoveAllSubmap(s.kv, order); }
    case TickRequest(visits) => PassSubmap(s, visits);
    case CampaignRequest(name, value, lease) => CampaignAges(s, name, value, lease);
    case _ =>
  }

  /** Over any run at all, from any store: keys are kept with their create revision or created later
      than the start. */
  lemma {:induction false} RunAges(s: Store, rs: seq<Request>)
    requires Run(s, rs).Ran?
    ensures Ages(s, Run(s, rs).store)
  {
    if rs != [] {
      var n := |rs| - 1;
      RunAges(s, rs[..n]);
      var t := Run(s, rs[..n]).store;
      StepAges(t, rs[n]);
      AgesTransitive(s, t, Run(s, rs).store);
    }
  }

  // ---- steps that do not move the revision -----------------------------------------------

  lemma {:induction false} PassStill(s: Store, visits: seq<Visit>)
    requires ExpiryPass(s, visits).Passed?
    ensures var p := ExpiryPass(s, visits);
      |p.leases| < |s.leases| || (|p.leases| == |s.leases| && p.leases.Keys == s.leases.Keys && p.kv == s.kv)
  {
    if visits != [] {
      var n := |visits| - 1;
      PassStill(s, visits[..n]);
      var p, v := ExpiryPass(s, visits[..n]), visits[n];
      if p.leases[v.id].ttl - 1 > 0 {
        var l := p.leases[v.id].(ttl := p.leases[v.id].ttl - 1);
        assert p.leases[v.id := l].Keys == p.leases.Keys;
        assert |p.leases| == |p.leases.Keys| && |p.leases[v.id := l]| == |p.leases[v.id := l].Keys|;
      } else {
        assert p.leases == (p.leases - {v.id})[v.id := p.leases[v.id]];
      }
    }
  }

  /** A request that does not move the revision changes no record and no set of leases. */
  lemma {:induction false} StepStill(s: Store, r: Request)
    requires Step(s, r).Done? && Step(s, r).store.revision <= s.revision
    ensures Step(s, r).store.kv == s.kv && Step(s, r).store.leases.Keys == s.leases.Keys
  {
    if r.TickRequest? { PassStill(s, r.visits); }
  }

  lemma {:induction false} RunStill(s: Store, rs: seq<Request>)
    requires Run(s, rs).Ran? && Run(s, rs).store.revision <= s.revision
    ensures Run(s, rs).store.kv == s.kv && Run(s, rs).store.leases.Keys == s.leases.Keys
  {
    if rs != [] {
      var n := |rs| - 1;
      RunAges(s, rs[..n]);
      StepAges(Run(s, rs[..n]).store, rs[n]);
      RunStill(s, rs[..n]);
      StepStill(Run(s, rs[..n]).store, rs[n]);
    }
  }
}
