/** Exact conditions for runs: which requests, transactions of any nesting depth included, panic or
    break the lease index, decided from the request and the store before the call. */
module EtcdGuards {
  import opened ByteStrings
  import opened EtcdStore
  import opened EtcdReplay
  import opened EtcdLeases
  import opened EtcdTxn

  /** A put on an unknown lease, or a prefix read whose range has no end. */
  predicate BadOp(s: Store, op: TxnOp) {
    || (op.PutOp? && op.lease != 0 && op.lease !in s.leases)
    || (op.GetOp? && op.prefix && !Rangeable(op.key))
  }

  function LeaseOf(kv: map<Bytes, KeyValue>, k: Bytes): Option<LeaseId> {
    if k in kv then Some(kv[k].lease) else None
  }

  /** The lease a key carries after a flat list of operations, None if it is absent. */
  function LeaseAfter(kv: map<Bytes, KeyValue>, ops: seq<TxnOp>, k: Bytes): Option<LeaseId> {
    if ops == [] then LeaseOf(kv, k)
    else
      var op, init := ops[|ops| - 1], ops[..|ops| - 1];
      if op.PutOp? && op.key == k then Some(op.lease)
      else if op.DeleteOp? && op.key == k then None
      else LeaseAfter(kv, init, k)
  }

  /** The last write of the key is a put that repeats the lease the key then has. */
  predicate Detached(kv: map<Bytes, KeyValue>, ops: seq<TxnOp>, k: Bytes) {
    if ops == [] then false
    else
      var op, init := ops[|ops| - 1], ops[..|ops| - 1];
      if op.PutOp? && op.key == k then op.lease != 0 && LeaseAfter(kv, init, k) == Some(op.lease)
      else if op.DeleteOp? && op.key == k then false
      else Detached(kv, init, k)
  }

  /** t is s after the operations: leases carried as predicted, key sets short of the detached keys. */
  ghost predicate Tracks(s: Store, ops: seq<TxnOp>, t: Store) {
    && WellKeyed(t.kv)
    && t.leases.Keys == s.leases.Keys && 0 !in s.leases
    && (forall k :: LeaseOf(t.kv, k) == LeaseAfter(s.kv, ops, k))
    && (forall k :: k in t.kv && t.kv[k].lease != 0 ==> t.kv[k].lease in s.leases)
    && (forall id, k {:trigger k in t.leases[id].keys} :: id in t.leases ==>
          (k in t.leases[id].keys <==> LeaseAfter(s.kv, ops, k) == Some(id) && !Detached(s.kv, ops, k)))
  }

  lemma PutTracks(s: Store, ops: seq<TxnOp>, p: Store)
    requires ops != [] && ops[|ops| - 1].PutOp? && Tracks(s, ops[..|ops| - 1], p)
    requires !BadOp(s, ops[|ops| - 1])
    ensures var o := OpStep(p, ops[|ops| - 1]); o.Done? && !o.reply.Failed? && Tracks(s, ops, o.store)
  {
    var op := ops[|ops| - 1];
    assert LeaseOf(p.kv, op.key) == LeaseAfter(s.kv, ops[..|ops| - 1], op.key);
    var t := OpStep(p, op).store;
    forall id, k | id in t.leases
      ensures k in t.leases[id].keys <==> LeaseAfter(s.kv, ops, k) == Some(id) && !Detached(s.kv, ops, k)
    {
      PutKeys(s, ops, p, id, k);
    }
    PutLeases(s, ops, p);
  }

  /** Whether a lease lists a key after a put. */
  lemma PutKeys(s: Store, ops: seq<TxnOp>, p: Store, id: LeaseId, k: Bytes)
    requires ops != [] && ops[|ops| - 1].PutOp? && Tracks(s, ops[..|ops| - 1], p)
    requires var o := OpStep(p, ops[|ops| - 1]); o.Done? && !o.reply.Failed? && id in o.store.leases
    ensures k in OpStep(p, ops[|ops| - 1]).store.leases[id].keys <==>
      LeaseAfter(s.kv, ops, k) == Some(id) && !Detached(s.kv, ops, k)
  {
    var op, init := ops[|ops| - 1], ops[..|ops| - 1];
    assert LeaseOf(p.kv, op.key) == LeaseAfter(s.kv, init, op.key);
    assert k in p.leases[id].keys <==> LeaseAfter(s.kv, init, k) == Some(id) && !Detached(s.kv, init, k);
  }

  lemma PutLeases(s: Store, ops: seq<TxnOp>, p: Store)
    requires ops != [] && ops[|ops| - 1].PutOp? && Tracks(s, ops[..|ops| - 1], p)
    requires var o := OpStep(p, ops[|ops| - 1]); o.Done? && !o.reply.Failed?
    ensures forall k :: LeaseOf(OpStep(p, ops[|ops| - 1]).store.kv, k) == LeaseAfter(s.kv, ops, k)
  {
    forall k ensures LeaseOf(OpStep(p, ops[|ops| - 1]).store.kv, k) == LeaseAfter(s.kv, ops, k) {
      assert LeaseOf(p.kv, k) == LeaseAfter(s.kv, ops[..|ops| - 1], k);
    }
  }

  lemma DeleteTracks(s: Store, ops: seq<TxnOp>, p: Store)
    requires ops != [] && ops[|ops| - 1].DeleteOp? && Tracks(s, ops[..|ops| - 1], p)
    ensures var o := OpStep(p, ops[|ops| - 1]); o.Done? && Tracks(s, ops, o.store)
  {
    var op, init := ops[|ops| - 1], ops[..|ops| - 1];
    assert LeaseOf(p.kv, op.key) == LeaseAfter(s.kv, init, op.key);
    var t := OpStep(p, op).store;
    forall id, k | id in t.leases
      ensures k in t.leases[id].keys <==> LeaseAfter(s.kv, ops, k) == Some(id) && !Detached(s.kv, ops, k)
    {
      assert k in p.leases[id].keys <==> LeaseAfter(s.kv, init, k) == Some(id) && !Detached(s.kv, init, k);
    }
    forall k ensures LeaseOf(t.kv, k) == LeaseAfter(s.kv, ops, k) {
      assert LeaseOf(p.kv, k) == LeaseAfter(s.kv, init, k);
    }
  }

  lemma GetTracks(s: Store, ops: seq<TxnOp>, p: Store)
    requires ops != [] && ops[|ops| - 1].GetOp? && Tracks(s, ops[..|ops| - 1], p)
    ensures Tracks(s, ops, p)
  {
    forall k ensures LeaseAfter(s.kv, ops, k) == LeaseAfter(s.kv, ops[..|ops| - 1], k) {}
    forall k ensures Detached(s.kv, ops, k) == Detached(s.kv, ops[..|ops| - 1], k) {}
  }

  lemma {:induction false} FlatOpsTrack(s: Store, ops: seq<TxnOp>)
    requires Indexed(s) && Flat(ops)
    ensures OpsStep(s, ops).OpsPanic? <==> exists op :: op in ops && BadOp(s, op)
    ensures OpsStep(s, ops).OpsDone? ==> Tracks(s, ops, OpsStep(s, ops).store)
  {
    if ops != [] {
      var n := |ops| - 1;
      assert ops == ops[..n] + [ops[n]];
      assert ops[n] in ops;
      FlatOpsTrack(s, ops[..n]);
      var p := OpsStep(s, ops[..n]);
      if p.OpsDone? {
        match ops[n]
        case PutOp(key, value, lease, wantPrev) => if !BadOp(s, ops[n]) { PutTracks(s, ops, p.store); }
        case GetOp(key, prefix) => GetTracks(s, ops, p.store);
        case DeleteOp(key) => DeleteTracks(s, ops, p.store);
      } else {
        var op :| op in ops[..n] && BadOp(s, op);
        assert op in ops;
      }
    }
  }

  ghost predicate Detaches(kv: map<Bytes, KeyValue>, ops: seq<TxnOp>) {
    exists k :: Detached(kv, ops, k)
  }

  lemma TracksIndex(s: Store, ops: seq<TxnOp>, t: Store, u: Store)
    requires Tracks(s, ops, t) && u.kv == t.kv && u.leases == t.leases
    ensures Indexed(u) <==> !Detaches(s.kv, ops)
  {
    if k :| Detached(s.kv, ops, k) {
      var l := DetachedLease(s.kv, ops, k);
      assert LeaseOf(t.kv, k) == Some(l);
      assert k !in u.leases[l].keys;
    } else {
      forall id, k | id in u.leases ensures k in u.leases[id].keys <==> k in u.kv && u.kv[k].lease == id {
        assert k in t.leases[id].keys <==> LeaseAfter(s.kv, ops, k) == Some(id);
        assert LeaseOf(t.kv, k) == LeaseAfter(s.kv, ops, k);
      }
    }
  }

  lemma {:induction false} DetachedLease(kv: map<Bytes, KeyValue>, ops: seq<TxnOp>, k: Bytes) returns (l: LeaseId)
    requires Detached(kv, ops, k)
    ensures l != 0 && LeaseAfter(kv, ops, k) == Some(l)
  {
    var op := ops[|ops| - 1];
    if op.PutOp? && op.key == k { l := op.lease; } else { l := DetachedLease(kv, ops[..|ops| - 1], k); }
  }

  lemma AlikeIndexed(s: Store, t: Store)
    requires Alike(s, t) && Indexed(s)
    ensures Indexed(t)
  {
    forall k | k in t.kv ensures Strip(s.kv[k]) == Strip(t.kv[k]) {}
    forall id, k | id in t.leases ensures k in t.leases[id].keys <==> k in t.kv && t.kv[k].lease == id {
      assert k in s.leases[id].keys <==> k in s.kv && s.kv[k].lease == id;
    }
  }

  /** A transaction panics if and only if the primitive operations it comes down to hold a put on a
      lease unknown beforehand or a prefix read without end; otherwise it keeps the lease index if
      and only if no key's last write among them repeats the lease the key then has. */
  lemma {:induction false} TxnIndexIff(s: Store, txn: Txn)
    requires Indexed(s)
    ensures TxnStep(s, txn).Panic? <==> exists op :: op in FlattenTxn(s, txn) && BadOp(s, op)
    ensures TxnStep(s, txn).Done? ==> (Indexed(TxnStep(s, txn).store) <==> !Detaches(s.kv, FlattenTxn(s, txn)))
  {
    var ops := Chosen(s.kv, txn);
    var f := FlattenTxn(s, txn);
    FlattenFlat(s, ops);
    FlattenSound(s, ops);
    FlatOpsTrack(s, f);
    if OpsStep(s, ops).OpsDone? {
      var t, u := OpsStep(s, f).store, TxnStep(s, txn).store;
      TracksIndex(s, f, t, t);
      assert Alike(u, t) && Alike(t, u);
      if Indexed(t) { AlikeIndexed(t, u); }
      if Indexed(u) { AlikeIndexed(u, t); }
    }
  }

  // ---- runs ------------------------------------------------------------------------------

  /** What the callers of a run must respect, request by request. */
  ghost predicate Guard(s: Store, r: Request) {
    if r.TxnRequest? then
      (forall op :: op in FlattenTxn(s, r.txn) ==> !BadOp(s, op)) && !Detaches(s.kv, FlattenTxn(s, r.txn))
    else !PanicInput(s, r) && !DetachingInput(s, r)
  }

  /** For one request the guard is exact. */
  lemma {:induction false} GuardIff(s: Store, r: Request)
    requires Indexed(s) && Legal(s, r)
    ensures Guard(s, r) <==> Step(s, r).Done? && Indexed(Step(s, r).store)
  {
    if r.TxnRequest? { TxnIndexIff(s, r.txn); } else { StepIndex(s, r); }
  }

  ghost predicate GuardedRun(s: Store, rs: seq<Request>) {
    rs == [] ||
    (GuardedRun(s, rs[..|rs| - 1]) &&
     var o := Run(s, rs[..|rs| - 1]);
     o.Ran? ==> Guard(o.store, rs[|rs| - 1]))
  }

  /** Up to every moment of the run no request has panicked, and the index agrees with the store. */
  ghost predicate AlwaysIndexed(s: Store, rs: seq<Request>) {
    Run(s, rs).Ran? && Indexed(Run(s, rs).store) && (rs != [] ==> AlwaysIndexed(s, rs[..|rs| - 1]))
  }

  /** Every legal run, transactions of any depth, revocations and expiry included: no expectation of
      the server fails and the index agrees throughout if and only if every request respects the
      guard in the state it meets. */
  lemma {:induction false} RunIndexed(s: Store, rs: seq<Request>)
    requires Indexed(s) && LegalRun(s, rs)
    ensures AlwaysIndexed(s, rs) <==> GuardedRun(s, rs)
  {
    if rs != [] {
      var n := |rs| - 1;
      RunIndexed(s, rs[..n]);
      if AlwaysIndexed(s, rs[..n]) { GuardIff(Run(s, rs[..n]).store, rs[n]); }
    }
  }

  /** From the empty server on, in particular. */
  lemma ReachableIndexed(rs: seq<Request>)
    requires LegalRun(EmptyStore, rs)
    ensures AlwaysIndexed(EmptyStore, rs) <==> GuardedRun(EmptyStore, rs)
  {
    RunIndexed(EmptyStore, rs);
  }
}
