/** Create revisions distinct and never above the store revision: exactly which transactions, requests
    and runs keep them so. */
module EtcdStamps {
  import opened ByteStrings
  import opened EtcdStore
  import opened EtcdReplay
  import opened EtcdAges

  ghost predicate Stamped(s: Store) {
    && (forall k :: k in s.kv ==> s.kv[k].created <= s.revision)
    && (forall a, b :: a in s.kv && b in s.kv && s.kv[a].created == s.kv[b].created ==> a == b)
  }

  /** No record is dated before its creation or in the future. */
  ghost predicate Dated(s: Store) {
    forall k :: k in s.kv ==> s.kv[k].created <= s.kv[k].modified <= s.revision
  }

  /** What a finished step owes to create revisions. */
  ghost predicate Steady(s: Store, o: Outcome) {
    o.Done? ==> Stamped(o.store) && (Dated(s) ==> Dated(o.store))
  }

  lemma PutSteady(s: Store, key: Bytes, value: Bytes, lease: LeaseId, wantPrev: bool)
    requires Stamped(s)
    ensures Steady(s, PutStep(s, key, value, lease, wantPrev))
  {
  }

  /** Removing keys, or doing nothing to them, is harmless at any later revision. */
  lemma SubmapSteady(s: Store, t: Store)
    requires Stamped(s) && Submap(t.kv, s.kv) && s.revision <= t.revision
    ensures Stamped(t) && (Dated(s) ==> Dated(t))
  {
  }

  lemma NewRecordSteady(s: Store, t: Store, r: KeyValue)
    requires Stamped(s) && t.revision == s.revision + 1 && t.kv == s.kv[r.key := r]
      && r.created == r.modified == t.revision
    ensures Stamped(t) && (Dated(s) ==> Dated(t))
  {
  }

  lemma CampaignSteady(s: Store, name: Bytes, value: Bytes, lease: LeaseId)
    requires Stamped(s)
    ensures Steady(s, CampaignStep(s, name, value, lease))
  {
    var key := CampaignKey(name, lease);
    var o := CampaignStep(s, name, value, lease);
    if o.Done? {
      if o.events == [] {
        SubmapSteady(s, o.store);
      } else {
        NewRecordSteady(s, o.store, KeyValue(key, value, lease, s.revision + 1, s.revision + 1));
      }
    }
  }

  lemma ProclaimSteady(s: Store, key: Bytes, value: Bytes)
    requires Stamped(s)
    ensures Steady(s, ProclaimStep(s, key, value))
  {
  }

  // ---- transactions ----------------------------------------------------------------------

  /** At most one operation of a branch writes, at every nesting level. */
  predicate SingleWriteOps(ops: seq<TxnOp>)
    decreases ops
  {
    && (forall i, j :: 0 <= i < j < |ops| ==> ops[i].GetOp? || ops[j].GetOp?)
    && (forall op :: op in ops ==> SingleWriteOp(op))
  }

  predicate SingleWriteOp(op: TxnOp)
    decreases op
  {
    op.NestedOp? ==> SingleWriteTxn(op.txn)
  }

  predicate SingleWriteTxn(txn: Txn)
    decreases txn
  {
    SingleWriteOps(txn.success) && SingleWriteOps(txn.failure)
  }

  lemma {:induction false} SingleOpsSteady(s: Store, ops: seq<TxnOp>)
    requires Stamped(s) && SingleWriteOps(ops)
    requires OpsStep(s, ops).OpsDone?
    ensures Stamped(OpsStep(s, ops).store)
    ensures Dated(s) ==> Dated(OpsStep(s, ops).store)
    ensures OpsStep(s, ops).store.revision <= s.revision + 1
    ensures (forall op :: op in ops ==> op.GetOp?) ==> OpsStep(s, ops).store == s
    decreases ops
  {
    if ops != [] {
      var n := |ops| - 1;
      var init := ops[..n];
      assert ops == init + [ops[n]] && SingleWriteOps(init);
      SingleOpsSteady(s, init);
      if !ops[n].GetOp? {
        forall op | op in init ensures op.GetOp? {
          var i :| 0 <= i < n && ops[i] == op;
        }
        assert ops[n] in ops;
        SingleOpSteady(s, ops[n]);
      }
    }
  }

  lemma {:induction false} SingleOpSteady(s: Store, op: TxnOp)
    requires Stamped(s) && SingleWriteOp(op)
    ensures Steady(s, OpStep(s, op))
    ensures OpStep(s, op).Done? ==> OpStep(s, op).store.revision <= s.revision + 1
    decreases op
  {
    match op
    case PutOp(key, value, lease, wantPrev) => PutSteady(s, key, value, lease, wantPrev);
    case GetOp(key, prefix) =>
    case DeleteOp(key) =>
    case NestedOp(txn) =>
      var ops := Chosen(s.kv, txn);
      if OpsStep(s, ops).OpsDone? { SingleOpsSteady(s, ops); }
  }

  /** What of a transaction bears on create revisions: the values present, which its comparisons look
      at; whether the revision has moved since it began; and the keys it created after that. */
  datatype Track = Track(values: map<Bytes, Bytes>, moved: bool, late: set<Bytes>)

  function ValuesOf(kv: map<Bytes, KeyValue>): map<Bytes, Bytes> {
    map k | k in kv :: kv[k].value
  }

  function Picked(values: map<Bytes, Bytes>, txn: Txn): seq<TxnOp> {
    if forall c :: c in txn.compare ==> Compares(if c.key in values then Some(values[c.key]) else None, c)
    then txn.success else txn.failure
  }

  function TrackOps(t: Track, ops: seq<TxnOp>): Track
    decreases ops
  {
    if ops == [] then t else TrackOp(TrackOps(t, ops[..|ops| - 1]), ops[|ops| - 1])
  }

  function TrackOp(t: Track, op: TxnOp): Track
    decreases op
  {
    match op
    case PutOp(key, value, _, _) =>
      Track(t.values[key := value], true, if key !in t.values && t.moved then t.late + {key} else t.late)
    case GetOp(_, _) => t
    case DeleteOp(key) => if key in t.values then Track(t.values - {key}, true, t.late - {key}) else t
    case NestedOp(txn) => TrackOps(t, Picked(t.values, txn)).(moved := true)
  }

  /** The transaction leaves a key that it created after the revision had moved: by another of its
      writes, or by a transaction nested in it, which moves the revision even if it writes nothing. */
  predicate LeavesLateKey(kv: map<Bytes, KeyValue>, txn: Txn) {
    TrackOps(Track(ValuesOf(kv), false, {}), Picked(ValuesOf(kv), txn)).late != {}
  }

  lemma PickedIsChosen(kv: map<Bytes, KeyValue>, txn: Txn)
    ensures Picked(ValuesOf(kv), txn) == Chosen(kv, txn)
  {
    var values := ValuesOf(kv);
    forall key ensures (if key in values then Some(values[key]) else None) == ValueAt(kv, key) {}
  }

  /** Create revisions in a store t that a transaction begun in s0 can have reached. */
  ghost predicate StampsMidway(s0: Store, t: Store, late: set<Bytes>) {
    && s0.revision <= t.revision && late <= t.kv.Keys
    && (forall k :: k in t.kv ==> (k in late <==> t.kv[k].created > s0.revision + 1))
    && (forall k :: k in t.kv ==>
          (k in s0.kv && t.kv[k].created == s0.kv[k].created <= s0.revision) || s0.revision < t.kv[k].created)
    && (forall a, b :: a in t.kv && b in t.kv && a !in late && t.kv[a].created == t.kv[b].created ==> a == b)
    && (t.revision == s0.revision ==> forall k :: k in t.kv ==> t.kv[k].created <= s0.revision)
  }

  /** How far into a transaction that began in s0 the store t can be. */
  ghost predicate Midway(s0: Store, t: Store, track: Track) {
    && StampsMidway(s0, t, track.late)
    && track.values == ValuesOf(t.kv) && (track.moved <==> s0.revision < t.revision)
  }

  lemma PutStamps(s0: Store, t: Store, late: set<Bytes>, op: TxnOp)
    requires StampsMidway(s0, t, late) && op.PutOp? && OpStep(t, op).Done? && !OpStep(t, op).reply.Failed?
    ensures StampsMidway(s0, OpStep(t, op).store,
                         if op.key !in t.kv && s0.revision < t.revision then late + {op.key} else late)
  {
  }

  lemma ValuesOfPut(kv: map<Bytes, KeyValue>, key: Bytes, r: KeyValue)
    ensures ValuesOf(kv[key := r]) == ValuesOf(kv)[key := r.value] && (key in ValuesOf(kv) <==> key in kv)
  {
  }

  lemma PutMidway(s0: Store, t: Store, track: Track, op: TxnOp)
    requires Midway(s0, t, track) && op.PutOp? && OpStep(t, op).Done? && !OpStep(t, op).reply.Failed?
    ensures Midway(s0, OpStep(t, op).store, TrackOp(track, op))
  {
    var u := OpStep(t, op).store;
    PutStamps(s0, t, track.late, op);
    ValuesOfPut(t.kv, op.key, u.kv[op.key]);
    assert StampsMidway(s0, u, TrackOp(track, op).late);
  }

  lemma DeleteMidway(s0: Store, t: Store, track: Track, op: TxnOp)
    requires Midway(s0, t, track) && op.DeleteOp?
    ensures OpStep(t, op).Done? ==> Midway(s0, OpStep(t, op).store, TrackOp(track, op))
  {
    if op.key in t.kv { assert ValuesOf(t.kv - {op.key}) == ValuesOf(t.kv) - {op.key}; }
  }

  lemma {:induction false} OpsMidway(s0: Store, t: Store, track: Track, ops: seq<TxnOp>)
    requires Midway(s0, t, track) && OpsStep(t, ops).OpsDone?
    ensures Midway(s0, OpsStep(t, ops).store, TrackOps(track, ops))
    ensures t.revision <= OpsStep(t, ops).store.revision
    decreases ops
  {
    if ops != [] {
      var n := |ops| - 1;
      OpsMidway(s0, t, track, ops[..n]);
      OpMidway(s0, OpsStep(t, ops[..n]).store, TrackOps(track, ops[..n]), ops[n]);
    }
  }

  lemma {:induction false} OpMidway(s0: Store, t: Store, track: Track, op: TxnOp)
    requires Midway(s0, t, track) && OpStep(t, op).Done? && !(op.PutOp? && OpStep(t, op).reply.Failed?)
    ensures Midway(s0, OpStep(t, op).store, TrackOp(track, op))
    ensures t.revision <= OpStep(t, op).store.revision
    decreases op
  {
    match op
    case PutOp(_, _, _, _) => PutMidway(s0, t, track, op);
    case GetOp(_, _) =>
    case DeleteOp(_) => DeleteMidway(s0, t, track, op);
    case NestedOp(txn) =>
      PickedIsChosen(t.kv, txn);
      OpsMidway(s0, t, track, Chosen(t.kv, txn));
  }

  /** A transaction of any nesting depth keeps create revisions distinct and bounded if and only if it
      leaves no key that it created after the revision had moved. */
  lemma {:induction false} TxnStampedIff(s: Store, txn: Txn)
    requires Stamped(s) && TxnStep(s, txn).Done?
    ensures Stamped(TxnStep(s, txn).store) <==> !LeavesLateKey(s.kv, txn)
  {
    PickedIsChosen(s.kv, txn);
    var start := Track(ValuesOf(s.kv), false, {});
    OpsMidway(s, s, start, Chosen(s.kv, txn));
    var late, u := TrackOps(start, Chosen(s.kv, txn)).late, TxnStep(s, txn).store;
    if k :| k in late {
      assert k in u.kv && u.kv[k].created > u.revision;
    }
  }

  // ---- runs ------------------------------------------------------------------------------

  /** The one thing callers must respect: a transaction may not leave a late key. */
  predicate Tidy(s: Store, r: Request) {
    r.TxnRequest? ==> !LeavesLateKey(s.kv, r.txn)
  }

  /** Every request of the run is tidy in the state it meets. */
  predicate TidyRun(s: Store, rs: seq<Request>) {
    rs == [] ||
    (TidyRun(s, rs[..|rs| - 1]) &&
     var o := Run(s, rs[..|rs| - 1]);
     o.Ran? ==> Tidy(o.store, rs[|rs| - 1]))
  }

  lemma RevokeSteady(s: Store, id: LeaseId, order: seq<Bytes>)
    requires Stamped(s)
    ensures Steady(s, RevokeStep(s, id, order))
  {
    var o := RevokeStep(s, id, order);
    if o.Done? {
      if id in s.leases { RemoveAllSubmap(s.kv, order); }
      SubmapSteady(s, o.store);
    }
  }

  lemma TickSteady(s: Store, visits: seq<Visit>)
    requires Stamped(s)
    ensures Steady(s, TickStep(s, visits))
  {
    if ExpiryPass(s, visits).Passed? {
      PassSubmap(s, visits);
      SubmapSteady(s, TickStep(s, visits).store);
    }
  }

  /** For one request: create revisions stay distinct and bounded exactly when it is tidy. */
  lemma {:induction false} StepSteady(s: Store, r: Request)
    requires Stamped(s)
    ensures Step(s, r).Done? ==> (Stamped(Step(s, r).store) <==> Tidy(s, r))
    ensures !r.TxnRequest? && Step(s, r).Done? && Dated(s) ==> Dated(Step(s, r).store)
  {
    match r
    case PutRequest(key, value, lease, wantPrev) => PutSteady(s, key, value, lease, wantPrev);
    case TxnRequest(txn) => if TxnStep(s, txn).Done? { TxnStampedIff(s, txn); }
    case RevokeRequest(id, order) => RevokeSteady(s, id, order);
    case TickRequest(visits) => TickSteady(s, visits);
    case CampaignRequest(name, value, lease) => CampaignSteady(s, name, value, lease);
    case ProclaimRequest(key, value) => ProclaimSteady(s, key, value);
    case _ => if Step(s, r).Done? { SubmapSteady(s, Step(s, r).store); }
  }

  /** Up to every moment of the run, create revisions are distinct and never above the revision. */
  ghost predicate AlwaysStamped(s: Store, rs: seq<Request>) {
    Run(s, rs).Ran? && Stamped(Run(s, rs).store) && (rs != [] ==> AlwaysStamped(s, rs[..|rs| - 1]))
  }

  /** Over any run that does not panic this holds if and only if every request is tidy. */
  lemma {:induction false} RunStampedIff(s: Store, rs: seq<Request>)
    requires Stamped(s) && Run(s, rs).Ran?
    ensures AlwaysStamped(s, rs) <==> TidyRun(s, rs)
  {
    if rs != [] {
      var n := |rs| - 1;
      RunStampedIff(s, rs[..n]);
      if AlwaysStamped(s, rs[..n]) { StepSteady(Run(s, rs[..n]).store, rs[n]); }
    }
  }

  /** No transaction of the run writes more than once in a branch. */
  predicate SingleWrites(rs: seq<Request>) {
    forall r :: r in rs && r.TxnRequest? ==> SingleWriteTxn(r.txn)
  }

  /** That is enough without looking at states, and then no record is dated in the future either. */
  lemma {:induction false} SingleWritesAreTidy(s: Store, rs: seq<Request>)
    requires Stamped(s) && SingleWrites(rs) && Run(s, rs).Ran?
    ensures TidyRun(s, rs) && Stamped(Run(s, rs).store)
    ensures Dated(s) ==> Dated(Run(s, rs).store)
  {
    if rs != [] {
      var n := |rs| - 1;
      assert rs == rs[..n] + [rs[n]];
      SingleWritesAreTidy(s, rs[..n]);
      var t := Run(s, rs[..n]).store;
      StepSteady(t, rs[n]);
      if rs[n].TxnRequest? { SingleOpSteady(t, NestedOp(rs[n].txn)); }
    }
  }

  /** From the empty server on, in particular: these are the states the election lemmas speak of. */
  lemma {:induction false} ReachableStamped(rs: seq<Request>)
    requires TidyRun(EmptyStore, rs) && Run(EmptyStore, rs).Ran?
    ensures var t := Run(EmptyStore, rs).store; WellKeyed(t.kv) && Stamped(t)
    ensures SingleWrites(rs) ==> Dated(Run(EmptyStore, rs).store)
  {
    RunReplays(EmptyStore, rs);
    RunStampedIff(EmptyStore, rs);
    if SingleWrites(rs) { SingleWritesAreTidy(EmptyStore, rs); }
  }

  // ---- flat transactions, without running them --------------------------------------------------

  /** Whether the key is present after a flat list of operations. */
  predicate Present(kv: map<Bytes, KeyValue>, ops: seq<TxnOp>, k: Bytes) {
    if ops == [] then k in kv
    else
      var op, init := ops[|ops| - 1], ops[..|ops| - 1];
      if op.PutOp? && op.key == k then true
      else if op.DeleteOp? && op.key == k then false
      else Present(kv, init, k)
  }

  /** How many operations of a flat list write. */
  function Writes(kv: map<Bytes, KeyValue>, ops: seq<TxnOp>): nat {
    if ops == [] then 0
    else
      var op, init := ops[|ops| - 1], ops[..|ops| - 1];
      Writes(kv, init) + if op.PutOp? || (op.DeleteOp? && Present(kv, init, op.key)) then 1 else 0
  }

  /** The key is created after another write of the same branch, and not deleted again. */
  predicate CreatedLate(kv: map<Bytes, KeyValue>, ops: seq<TxnOp>, k: Bytes) {
    if ops == [] then false
    else
      var op, init := ops[|ops| - 1], ops[..|ops| - 1];
      if op.PutOp? && op.key == k && !Present(kv, init, k) then Writes(kv, init) > 0
      else if op.DeleteOp? && op.key == k then false
      else CreatedLate(kv, init, k)
  }

  ghost predicate CreatesLate(kv: map<Bytes, KeyValue>, ops: seq<TxnOp>) {
    exists k :: CreatedLate(kv, ops, k)
  }

  ghost predicate StampsTracked(s: Store, ops: seq<TxnOp>, t: Store) {
    && t.revision == s.revision + Writes(s.kv, ops)
    && (forall k :: k in t.kv <==> Present(s.kv, ops, k))
    && (forall k :: CreatedLate(s.kv, ops, k) <==> k in t.kv && t.kv[k].created > s.revision + 1)
  }

  lemma FlatOpStamps(s: Store, ops: seq<TxnOp>, p: Store)
    requires Stamped(s) && ops != [] && !ops[|ops| - 1].NestedOp?
    requires StampsTracked(s, ops[..|ops| - 1], p)
    requires OpStep(p, ops[|ops| - 1]).Done? && !OpStep(p, ops[|ops| - 1]).reply.Failed?
    ensures StampsTracked(s, ops, OpStep(p, ops[|ops| - 1]).store)
  {
  }

  lemma {:induction false} FlatOpsStamps(s: Store, ops: seq<TxnOp>)
    requires Stamped(s) && Flat(ops) && OpsStep(s, ops).OpsDone?
    ensures Stamped(OpsStep(s, ops).store) && StampsTracked(s, ops, OpsStep(s, ops).store)
  {
    if ops != [] {
      var n := |ops| - 1;
      assert ops == ops[..n] + [ops[n]];
      assert ops[n] in ops;
      FlatOpsStamps(s, ops[..n]);
      var p := OpsStep(s, ops[..n]).store;
      SingleOpSteady(p, ops[n]);
      FlatOpStamps(s, ops, p);
    }
  }

  /** A flat transaction keeps create revisions distinct and bounded if and only if its branch
      creates no lasting key after another of its writes: a test on the branch and on which keys
      are present beforehand. */
  lemma FlatTxnStampedIff(s: Store, txn: Txn)
    requires Stamped(s) && Flat(Chosen(s.kv, txn)) && TxnStep(s, txn).Done?
    ensures Stamped(TxnStep(s, txn).store) <==> !CreatesLate(s.kv, Chosen(s.kv, txn))
  {
    var ops := Chosen(s.kv, txn);
    FlatOpsStamps(s, ops);
    var t := OpsStep(s, ops).store;
    var u := TxnStep(s, txn).store;
    assert u.kv == t.kv && u.revision == s.revision + 1;
    if k :| CreatedLate(s.kv, ops, k) {
      assert k in u.kv && u.kv[k].created > u.revision;
      assert !Stamped(u);
    } else {
      assert forall k :: k in u.kv ==> u.kv[k].created <= u.revision;
    }
  }
}
