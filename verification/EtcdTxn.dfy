/** A transaction refines sequential requests.  It leaves exactly the store and events of its
    branch run request by request, apart from the final revision; spelled out down to primitive
    operations, at any nesting depth, it does so up to revision stamps. */
module EtcdTxn {
  import opened ByteStrings
  import opened EtcdStore

  /** The four comparisons: for a stored key exactly one of `Less`, `Equal` and `Greater` holds, and `Equal`
      just for its own value; `Less` passes to greater values and never holds against the empty one,
      `Greater` passes to smaller values; of a missing key only `NotEqual` holds. */
  lemma ComparesByOrder(kv: map<Bytes, KeyValue>, key: Bytes, v: Bytes, u: Bytes)
    ensures Holds(kv, Compare(key, v, Equal)) <==> key in kv && kv[key].value == v
    ensures Holds(kv, Compare(key, v, NotEqual)) <==> !Holds(kv, Compare(key, v, Equal))
    ensures Holds(kv, Compare(key, v, Less)) ==>
      !Holds(kv, Compare(key, v, Equal)) && !Holds(kv, Compare(key, v, Greater))
    ensures Holds(kv, Compare(key, v, Greater)) ==> !Holds(kv, Compare(key, v, Equal))
    ensures key in kv <==>
      Holds(kv, Compare(key, v, Less)) || Holds(kv, Compare(key, v, Equal)) || Holds(kv, Compare(key, v, Greater))
    ensures !Holds(kv, Compare(key, [], Less))
    ensures ByteStrings.Less(v, u) && Holds(kv, Compare(key, v, Less)) ==> Holds(kv, Compare(key, u, Less))
    ensures ByteStrings.Less(v, u) && Holds(kv, Compare(key, u, Greater)) ==> Holds(kv, Compare(key, v, Greater))
  {
    if key in kv {
      var value := kv[key].value;
      LessTrichotomy(value, v);
      if ByteStrings.Less(v, u) && ByteStrings.Less(value, v) { LessTransitive(value, v, u); }
      if ByteStrings.Less(v, u) && ByteStrings.Less(u, value) { LessTransitive(v, u, value); }
    }
  }

  function Strip(r: KeyValue): KeyValue {
    r.(created := 0, modified := 0)
  }

  function StripEvent(e: Event): Event {
    if e.Put? then Put(Strip(e.kv)) else Delete(Strip(e.kv))
  }

  function StripEvents(events: seq<Event>): seq<Event> {
    seq(|events|, i requires 0 <= i < |events| => StripEvent(events[i]))
  }

  function StripAll(kvs: seq<KeyValue>): seq<KeyValue> {
    seq(|kvs|, i requires 0 <= i < |kvs| => Strip(kvs[i]))
  }

  /** A reply without its revisions. */
  function StripReply(r: Reply): Reply {
    match r
    case PutReply(_, prev) => PutReply(0, if prev.Some? then Some(Strip(prev.value)) else None)
    case GetReply(_, kvs) => GetReply(0, StripAll(kvs))
    case DeleteReply(_, deleted) => DeleteReply(0, deleted)
    case _ => r
  }

  function StripReplies(replies: seq<Reply>): seq<Reply> {
    seq(|replies|, i requires 0 <= i < |replies| => StripReply(replies[i]))
  }

  /** The replies to primitive operations, those inside nested transactions included. */
  function FlatReplies(replies: seq<Reply>): seq<Reply>
    decreases replies
  {
    if replies == [] then []
    else FlatReplies(replies[..|replies| - 1]) + FlatReply(replies[|replies| - 1])
  }

  function FlatReply(r: Reply): seq<Reply>
    decreases r
  {
    match r
    case TxnReply(_, _, replies) => FlatReplies(replies)
    case _ => [r]
  }

  /** The same keys, values and leases; revisions may differ. */
  ghost predicate Alike(s: Store, t: Store) {
    && s.leases == t.leases
    && s.kv.Keys == t.kv.Keys
    && forall k :: k in s.kv ==> Strip(s.kv[k]) == Strip(t.kv[k])
  }

  function Then(a: OpsOutcome, b: OpsOutcome): OpsOutcome {
    if a.OpsPanic? || b.OpsPanic? then OpsPanic else OpsDone(b.store, a.replies + b.replies, a.events + b.events)
  }

  lemma {:induction false} OpsConcat(s: Store, a: seq<TxnOp>, b: seq<TxnOp>)
    ensures OpsStep(s, a).OpsPanic? ==> OpsStep(s, a + b).OpsPanic?
    ensures OpsStep(s, a).OpsDone? ==> OpsStep(s, a + b) == Then(OpsStep(s, a), OpsStep(OpsStep(s, a).store, b))
  {
    if b == [] {
      assert a + b == a;
    } else {
      var n := |b| - 1;
      assert (a + b)[..|a + b| - 1] == a + b[..n] && (a + b)[|a + b| - 1] == b[n];
      OpsConcat(s, a, b[..n]);
      var p := OpsStep(s, a);
      if p.OpsDone? {
        var q := OpsStep(p.store, b[..n]);
        if q.OpsDone? {
          var o := OpStep(q.store, b[n]);
          if o.Done? {
            assert (p.replies + q.replies) + [o.reply] == p.replies + (q.replies + [o.reply]);
            assert (p.events + q.events) + o.events == p.events + (q.events + o.events);
          }
        }
      }
    }
  }

  /** The primitive operations a list of operations performs, nested branches spelled out. */
  function Flatten(s: Store, ops: seq<TxnOp>): seq<TxnOp>
    decreases ops
  {
    if ops == [] then []
    else
      var n := |ops| - 1;
      var init := Flatten(s, ops[..n]);
      var p := OpsStep(s, ops[..n]);
      if p.OpsPanic? then init else init + FlattenOp(p.store, ops[n])
  }

  function FlattenOp(s: Store, op: TxnOp): seq<TxnOp>
    decreases op
  {
    match op
    case NestedOp(txn) => FlattenTxn(s, txn)
    case _ => [op]
  }

  function FlattenTxn(s: Store, txn: Txn): seq<TxnOp>
    decreases txn
  {
    Flatten(s, Chosen(s.kv, txn))
  }

  lemma RangeAlike(s: Store, t: Store, name: Bytes)
    requires Alike(s, t) && Rangeable(name)
    ensures StripAll(PrefixRange(s.kv, name)) == StripAll(PrefixRange(t.kv, name))
  {
    assert RangeKeys(s.kv, name) == RangeKeys(t.kv, name);
    var keys := Ascending(RangeKeys(s.kv, name));
    forall i | 0 <= i < |keys| ensures Strip(PrefixRange(s.kv, name)[i]) == Strip(PrefixRange(t.kv, name)[i]) {
      assert keys[i] in keys;
    }
  }

  predicate Fails(s: Store, op: TxnOp) {
    OpStep(s, op).Panic? || (op.PutOp? && OpStep(s, op).reply.Failed?)
  }

  lemma GetAlike(s: Store, t: Store, key: Bytes, prefix: bool)
    requires Alike(s, t)
    ensures GetStep(s, key, prefix).Panic? <==> GetStep(t, key, prefix).Panic?
    ensures GetStep(s, key, prefix).Done? ==>
      StripReply(GetStep(s, key, prefix).reply) == StripReply(GetStep(t, key, prefix).reply)
  {
    if prefix {
      if Rangeable(key) { RangeAlike(s, t, key); }
    } else if key in s.kv {
      assert Strip(s.kv[key]) == Strip(t.kv[key]);
    }
  }

  lemma PutAlike(s: Store, t: Store, key: Bytes, value: Bytes, lease: LeaseId, wantPrev: bool)
    requires Alike(s, t)
    ensures var o, p := PutStep(s, key, value, lease, wantPrev), PutStep(t, key, value, lease, wantPrev);
      && (o.Panic? <==> p.Panic?)
      && (o.Done? ==> Alike(o.store, p.store) && StripEvents(o.events) == StripEvents(p.events)
                      && StripReply(o.reply) == StripReply(p.reply))
  {
    if key in s.kv { assert Strip(s.kv[key]) == Strip(t.kv[key]); }
  }

  lemma {:induction false} PrimitiveAlike(s: Store, t: Store, op: TxnOp)
    requires Alike(s, t) && !op.NestedOp?
    ensures Fails(s, op) <==> Fails(t, op)
    ensures !Fails(s, op) ==>
      && Alike(OpStep(s, op).store, OpStep(t, op).store)
      && StripEvents(OpStep(s, op).events) == StripEvents(OpStep(t, op).events)
      && StripReply(OpStep(s, op).reply) == StripReply(OpStep(t, op).reply)
  {
    match op
    case PutOp(key, value, lease, wantPrev) => PutAlike(s, t, key, value, lease, wantPrev);
    case GetOp(key, prefix) => GetAlike(s, t, key, prefix);
    case DeleteOp(key) => if key in s.kv { assert Strip(s.kv[key]) == Strip(t.kv[key]); }
  }

  /** Both finish alike, up to stamps. */
  ghost predicate SameWork(x: OpsOutcome, y: OpsOutcome) {
    && x.OpsDone? && y.OpsDone?
    && Alike(x.store, y.store)
    && StripEvents(x.events) == StripEvents(y.events)
    && StripReplies(x.replies) == StripReplies(y.replies)
  }

  lemma SameWorkMore(x: OpsOutcome, y: OpsOutcome, u: OpsOutcome, v: OpsOutcome)
    requires SameWork(x, y) && SameWork(u, v)
    ensures SameWork(Then(x, u), Then(y, v))
  {
    StripConcat(x.events, u.events);
    StripConcat(y.events, v.events);
    StripRepliesConcat(x.replies, u.replies);
    StripRepliesConcat(y.replies, v.replies);
  }

  lemma SameWorkTransitive(x: OpsOutcome, y: OpsOutcome, z: OpsOutcome)
    requires SameWork(x, y) && SameWork(y, z)
    ensures SameWork(x, z)
  {
    forall k | k in x.store.kv ensures Strip(x.store.kv[k]) == Strip(z.store.kv[k]) {
      assert Strip(y.store.kv[k]) == Strip(z.store.kv[k]);
    }
  }

  /** An operation's outcome as that of a list of one. */
  function AsOps(o: Outcome): OpsOutcome {
    if o.Panic? then OpsPanic else OpsDone(o.store, [o.reply], o.events)
  }

  lemma OpsLast(s: Store, ops: seq<TxnOp>)
    requires ops != []
    ensures var p := OpsStep(s, ops[..|ops| - 1]); var op := ops[|ops| - 1];
      OpsStep(s, ops) == if p.OpsPanic? || Fails(p.store, op) then OpsPanic else Then(p, AsOps(OpStep(p.store, op)))
  {
  }

  lemma {:induction false} FlatAlike(s: Store, t: Store, ops: seq<TxnOp>)
    requires Alike(s, t) && Flat(ops)
    ensures OpsStep(s, ops).OpsPanic? <==> OpsStep(t, ops).OpsPanic?
    ensures OpsStep(s, ops).OpsDone? ==> SameWork(OpsStep(s, ops), OpsStep(t, ops))
  {
    if ops != [] {
      var n := |ops| - 1;
      assert ops == ops[..n] + [ops[n]];
      FlatAlike(s, t, ops[..n]);
      OpsLast(s, ops);
      OpsLast(t, ops);
      var p, q := OpsStep(s, ops[..n]), OpsStep(t, ops[..n]);
      if p.OpsDone? {
        PrimitiveAlike(p.store, q.store, ops[n]);
        if !Fails(p.store, ops[n]) {
          SameWorkMore(p, q, AsOps(OpStep(p.store, ops[n])), AsOps(OpStep(q.store, ops[n])));
        }
      }
    }
  }

  lemma StripConcat(a: seq<Event>, b: seq<Event>)
    ensures StripEvents(a + b) == StripEvents(a) + StripEvents(b)
  {
  }

  lemma StripRepliesConcat(a: seq<Reply>, b: seq<Reply>)
    ensures StripReplies(a + b) == StripReplies(a) + StripReplies(b)
  {
  }

  /** The outcome with the replies of nested transactions spelled out. */
  function Unnested(x: OpsOutcome): OpsOutcome {
    if x.OpsPanic? then x else x.(replies := FlatReplies(x.replies))
  }

  lemma UnnestedMore(p: OpsOutcome, o: Outcome)
    requires p.OpsDone? && o.Done?
    ensures Unnested(Then(p, AsOps(o))) == Then(Unnested(p), OpsDone(o.store, FlatReply(o.reply), o.events))
  {
    assert (p.replies + [o.reply])[..|p.replies|] == p.replies;
  }

  lemma {:induction false} FlattenFlat(s: Store, ops: seq<TxnOp>)
    ensures Flat(Flatten(s, ops))
    decreases ops
  {
    if ops != [] {
      var n := |ops| - 1;
      FlattenFlat(s, ops[..n]);
      var p := OpsStep(s, ops[..n]);
      if p.OpsDone? { FlattenOpFlat(p.store, ops[n]); }
    }
  }

  lemma {:induction false} FlattenOpFlat(s: Store, op: TxnOp)
    ensures Flat(FlattenOp(s, op))
    decreases op
  {
    if op.NestedOp? { FlattenFlat(s, Chosen(s.kv, op.txn)); }
  }

  /** The flattened operations, run in sequence, panic exactly when the nested ones do, and otherwise
      do the same work, replies included. */
  lemma {:induction false} FlattenSound(s: Store, ops: seq<TxnOp>)
    ensures OpsStep(s, ops).OpsPanic? <==> OpsStep(s, Flatten(s, ops)).OpsPanic?
    ensures OpsStep(s, ops).OpsDone? ==> SameWork(Unnested(OpsStep(s, ops)), OpsStep(s, Flatten(s, ops)))
    decreases ops
  {
    if ops != [] {
      var n := |ops| - 1;
      var op := ops[n];
      FlattenSound(s, ops[..n]);
      OpsLast(s, ops);
      var p := OpsStep(s, ops[..n]);
      if p.OpsDone? {
        var front, f := Flatten(s, ops[..n]), FlattenOp(p.store, op);
        var q := OpsStep(s, front);
        FlattenOpSound(p.store, op);
        FlatAlike(p.store, q.store, f);
        OpsConcat(s, front, f);
        if !Fails(p.store, op) {
          var o := OpStep(p.store, op);
          var once := OpsDone(o.store, FlatReply(o.reply), o.events);
          UnnestedMore(p, o);
          SameWorkTransitive(once, OpsStep(p.store, f), OpsStep(q.store, f));
          SameWorkMore(Unnested(p), q, once, OpsStep(q.store, f));
        }
      }
    }
  }

  lemma {:induction false} FlattenOpSound(s: Store, op: TxnOp)
    ensures Flat(FlattenOp(s, op))
    ensures Fails(s, op) <==> OpsStep(s, FlattenOp(s, op)).OpsPanic?
    ensures !Fails(s, op) ==>
      var o := OpStep(s, op); SameWork(OpsDone(o.store, FlatReply(o.reply), o.events), OpsStep(s, FlattenOp(s, op)))
    decreases op
  {
    match op
    case NestedOp(txn) =>
      FlattenFlat(s, Chosen(s.kv, txn));
      FlattenSound(s, Chosen(s.kv, txn));
      assert TxnStep(s, txn) == OpStep(s, op);
    case _ => LeafSound(s, op);
  }

  lemma LeafSound(s: Store, op: TxnOp)
    requires !op.NestedOp?
    ensures Fails(s, op) <==> OpsStep(s, [op]).OpsPanic?
    ensures !Fails(s, op) ==>
      var o := OpStep(s, op);
      FlatReply(o.reply) == [o.reply] && OpsStep(s, [op]) == OpsDone(o.store, [o.reply], o.events)
  {
    assert [op][..0] == [];
    assert OpsStep(s, [op][..0]) == OpsDone(s, [], []);
    if !Fails(s, op) {
      var o := OpStep(s, op);
      assert OpsStep(s, [op]) == OpsDone(o.store, [] + [o.reply], [] + o.events);
      assert [] + o.events == o.events && [] + [o.reply] == [o.reply];
    }
  }

  function AsRequest(op: TxnOp): Request {
    match op
    case PutOp(key, value, lease, wantPrev) => PutRequest(key, value, lease, wantPrev)
    case GetOp(key, prefix) => GetRequest(key, prefix)
    case DeleteOp(key) => DeleteRequest(key)
    case NestedOp(txn) => TxnRequest(txn)
  }

  function AsRequests(ops: seq<TxnOp>): seq<Request> {
    seq(|ops|, i requires 0 <= i < |ops| => AsRequest(ops[i]))
  }

  /** No put among the operations was refused. */
  predicate NoPutRefused(ops: seq<TxnOp>, replies: seq<Reply>) {
    |ops| == |replies| && forall i :: 0 <= i < |ops| && ops[i].PutOp? ==> !replies[i].Failed?
  }

  /** A branch finishes exactly when its operations, sent as separate requests, all finish and no put
      is refused; store, events and replies are then the same. */
  lemma {:induction false} OpsAreRequests(s: Store, ops: seq<TxnOp>)
    ensures var run := Run(s, AsRequests(ops)); var o := OpsStep(s, ops);
      && (o.OpsDone? <==> run.Ran? && NoPutRefused(ops, run.replies))
      && (run.Ran? ==> |run.replies| == |ops|)
      && (o.OpsDone? ==> run == Ran(o.store, o.events, o.replies))
  {
    if ops != [] {
      var n := |ops| - 1;
      OpsAreRequests(s, ops[..n]);
      assert AsRequests(ops)[..n] == AsRequests(ops[..n]) && AsRequests(ops)[n] == AsRequest(ops[n]);
      RequestIsOp(s, ops);
      var run := Run(s, AsRequests(ops));
      if run.Ran? { RefusedMore(ops, run.replies); }
    }
  }

  lemma RefusedMore(ops: seq<TxnOp>, replies: seq<Reply>)
    requires ops != [] && |replies| == |ops|
    ensures var n := |ops| - 1;
      NoPutRefused(ops, replies) <==> NoPutRefused(ops[..n], replies[..n]) && !(ops[n].PutOp? && replies[n].Failed?)
  {
    var n := |ops| - 1;
    assert forall i :: 0 <= i < n ==> ops[..n][i] == ops[i] && replies[..n][i] == replies[i];
  }

  lemma {:induction false} RequestIsOp(s: Store, ops: seq<TxnOp>)
    requires ops != []
    requires AsRequests(ops)[..|ops| - 1] == AsRequests(ops[..|ops| - 1])
    ensures var init := Run(s, AsRequests(ops[..|ops| - 1]));
      Run(s, AsRequests(ops)) ==
        if init.Crashed? || OpStep(init.store, ops[|ops| - 1]).Panic? then Crashed
        else var o := OpStep(init.store, ops[|ops| - 1]); Ran(o.store, init.events + o.events, init.replies + [o.reply])
  {
  }

  /** The branch is the success one exactly if every comparison holds beforehand.  With each operation of it
      as a request of its own, nested transactions as transactions, the transaction finishes exactly when
      all of them do and no put is refused, with the same store (its revision set to start + 1), events
      and replies. */
  lemma {:induction false} TxnIsSequential(s: Store, txn: Txn, succeeds: bool, ops: seq<TxnOp>)
    requires succeeds <==> forall c :: c in txn.compare ==> Holds(s.kv, c)
    requires ops == if succeeds then txn.success else txn.failure
    ensures var o := TxnStep(s, txn); var run := Run(s, AsRequests(ops));
      && (o.Done? <==> run.Ran? && NoPutRefused(ops, run.replies))
      && (o.Done? ==> && o.store == run.store.(revision := s.revision + 1) && o.events == run.events
                      && o.reply == TxnReply(s.revision + 1, succeeds, run.replies))
  {
    OpsAreRequests(s, ops);
  }

  /** Any nesting depth: the branch spelled out to primitive operations and sent as separate requests
      finishes without a refused put exactly when the transaction does, and leaves the same keys,
      values, leases, events and replies up to stamps; the store revision ends at start + 1. */
  lemma {:induction false} TxnRefinesSequential(s: Store, txn: Txn)
    ensures var f := FlattenTxn(s, txn); var o := TxnStep(s, txn); var run := Run(s, AsRequests(f));
      && Flat(f)
      && (o.Done? <==> run.Ran? && NoPutRefused(f, run.replies))
      && (o.Done? ==>
           && o.store.revision == s.revision + 1
           && Alike(o.store, run.store) && StripEvents(o.events) == StripEvents(run.events)
           && StripReplies(FlatReplies(o.reply.replies)) == StripReplies(run.replies))
  {
    var ops := Chosen(s.kv, txn);
    FlattenFlat(s, ops);
    FlattenSound(s, ops);
    OpsAreRequests(s, Flatten(s, ops));
  }
}
