/** The simulated etcd server as a pure state machine.

    Every request holds one lock from start to end, so one request is one step.  A step yields
    the new store, the reply and the events published, in order, or `Panic` where the server
    panics.  What the server draws at random (lease ids, the order in which hash containers are
    visited) is a parameter of the request; `Legal` says which values it can draw. */
module EtcdStore {
  import opened ByteStrings

  type LeaseId = i: int | -0x8000_0000_0000_0000 <= i < 0x8000_0000_0000_0000

  datatype KeyValue = KeyValue(key: Bytes, value: Bytes, lease: LeaseId, created: int, modified: int)

  datatype Event = Put(kv: KeyValue) | Delete(kv: KeyValue)

  datatype Lease = Lease(ttl: int, granted: int, keys: set<Bytes>)

  datatype Store = Store(revision: int, kv: map<Bytes, KeyValue>, leases: map<LeaseId, Lease>)

  datatype Error = LeaseNotFound | SessionExpired

  datatype Reply =
    | PutReply(revision: int, prev: Option<KeyValue>)
    | GetReply(revision: int, kvs: seq<KeyValue>)
    | DeleteReply(revision: int, deleted: nat)
    | TxnReply(revision: int, succeeded: bool, replies: seq<Reply>)
    | GrantReply(revision: int, id: LeaseId, ttl: int)
    | RevokeReply(revision: int)
    | KeepAliveReply(revision: int, id: LeaseId, ttl: int)
    | TickReply
    | Elected(revision: int, key: Bytes, lease: LeaseId)
    | Waiting(key: Bytes)
    | ProclaimReply(revision: int)
    | LeaderReply(revision: int, leader: Option<KeyValue>)
    | ResignReply(revision: int)
    | Failed(error: Error)

  datatype Outcome = Done(store: Store, reply: Reply, events: seq<Event>) | Panic

  datatype CompareOp = Equal | Greater | Less | NotEqual

  datatype Compare = Compare(key: Bytes, value: Bytes, op: CompareOp)

  datatype Txn = Txn(compare: seq<Compare>, success: seq<TxnOp>, failure: seq<TxnOp>)

  datatype TxnOp =
    | PutOp(key: Bytes, value: Bytes, lease: LeaseId, wantPrev: bool)
    | GetOp(key: Bytes, prefix: bool)
    | DeleteOp(key: Bytes)
    | NestedOp(txn: Txn)

  /** One lease as the expiry pass meets it, with the order in which its keys are visited. */
  datatype Visit = Visit(id: LeaseId, keys: seq<Bytes>)

  datatype Request =
    | PutRequest(key: Bytes, value: Bytes, lease: LeaseId, wantPrev: bool)
    | GetRequest(key: Bytes, prefix: bool)
    | DeleteRequest(key: Bytes)
    | TxnRequest(txn: Txn)
    | GrantRequest(ttl: int, id: LeaseId, drawn: LeaseId)
    | RevokeRequest(id: LeaseId, order: seq<Bytes>)
    | KeepAliveRequest(id: LeaseId)
    | TickRequest(visits: seq<Visit>)
    | CampaignRequest(name: Bytes, value: Bytes, lease: LeaseId)
    | ProclaimRequest(key: Bytes, value: Bytes)
    | LeaderRequest(name: Bytes)
    | ObserveRequest(name: Bytes)
    | ResignRequest(key: Bytes)

  const EmptyStore := Store(0, map[], map[])

  // ---- keys and leases -------------------------------------------------------------------

  function Lookup(kv: map<Bytes, KeyValue>, key: Bytes): Option<KeyValue> {
    if key in kv then Some(kv[key]) else None
  }

  function Attach(leases: map<LeaseId, Lease>, id: LeaseId, key: Bytes): map<LeaseId, Lease>
    requires id in leases
  {
    leases[id := leases[id].(keys := leases[id].keys + {key})]
  }

  function Detach(leases: map<LeaseId, Lease>, id: LeaseId, key: Bytes): map<LeaseId, Lease>
    requires id in leases
  {
    leases[id := leases[id].(keys := leases[id].keys - {key})]
  }

  // ---- put, get, delete ------------------------------------------------------------------

  function PutStep(s: Store, key: Bytes, value: Bytes, lease: LeaseId, wantPrev: bool): Outcome {
    if lease != 0 && lease !in s.leases then Done(s, Failed(LeaseNotFound), [])
    else
      var prev := Lookup(s.kv, key);
      var attached := if lease != 0 then Attach(s.leases, lease, key) else s.leases;
      var hadLease := prev.Some? && prev.value.lease != 0;
      if hadLease && prev.value.lease !in attached then Panic
      else
        var leases := if hadLease then Detach(attached, prev.value.lease, key) else attached;
        var revision := s.revision + 1;
        var kv := KeyValue(key, value, lease, if prev.Some? then prev.value.created else revision, revision);
        Done(Store(revision, s.kv[key := kv], leases),
             PutReply(revision, if wantPrev then prev else None), [Put(kv)])
  }

  function RangeKeys(kv: map<Bytes, KeyValue>, name: Bytes): set<Bytes>
    requires Rangeable(name)
  {
    set k | k in kv && InRange(name, k)
  }

  /** The records under a prefix, in key order. */
  function PrefixRange(kv: map<Bytes, KeyValue>, name: Bytes): seq<KeyValue>
    requires Rangeable(name)
  {
    var keys := Ascending(RangeKeys(kv, name));
    seq(|keys|, i requires 0 <= i < |keys| => assert keys[i] in keys; kv[keys[i]])
  }

  function GetStep(s: Store, key: Bytes, prefix: bool): Outcome {
    if prefix then
      if Rangeable(key) then Done(s, GetReply(s.revision, PrefixRange(s.kv, key)), []) else Panic
    else
      Done(s, GetReply(s.revision, if key in s.kv then [s.kv[key]] else []), [])
  }

  function DeleteStep(s: Store, key: Bytes): Outcome {
    if key !in s.kv then Done(s, DeleteReply(s.revision, 0), [])
    else
      var kv := s.kv[key];
      var revision := s.revision + 1;
      if kv.lease != 0 && kv.lease !in s.leases then Panic
      else
        var leases := if kv.lease != 0 then Detach(s.leases, kv.lease, key) else s.leases;
        Done(Store(revision, s.kv - {key}, leases), DeleteReply(revision, 1), [Delete(kv)])
  }

  // ---- transactions ----------------------------------------------------------------------

  function ValueAt(kv: map<Bytes, KeyValue>, key: Bytes): Option<Bytes> {
    if key in kv then Some(kv[key].value) else None
  }

  predicate Compares(value: Option<Bytes>, c: Compare) {
    match c.op
    case Equal => value == Some(c.value)
    case Greater => value.Some? && ByteStrings.Less(c.value, value.value)
    case Less => value.Some? && ByteStrings.Less(value.value, c.value)
    case NotEqual => value != Some(c.value)
  }

  predicate Holds(kv: map<Bytes, KeyValue>, c: Compare) {
    Compares(ValueAt(kv, c.key), c)
  }

  predicate Succeeds(kv: map<Bytes, KeyValue>, txn: Txn) {
    forall c :: c in txn.compare ==> Holds(kv, c)
  }

  function Chosen(kv: map<Bytes, KeyValue>, txn: Txn): seq<TxnOp> {
    if Succeeds(kv, txn) then txn.success else txn.failure
  }

  /** No nested transaction. */
  predicate Flat(ops: seq<TxnOp>) {
    forall op :: op in ops ==> !op.NestedOp?
  }

  datatype OpsOutcome = OpsDone(store: Store, replies: seq<Reply>, events: seq<Event>) | OpsPanic

  /** The operations of a branch, one after another. */
  function OpsStep(s: Store, ops: seq<TxnOp>): OpsOutcome
    decreases ops
  {
    if ops == [] then OpsDone(s, [], [])
    else
      var n := |ops| - 1;
      match OpsStep(s, ops[..n])
      case OpsPanic => OpsPanic
      case OpsDone(t, replies, events) =>
        match OpStep(t, ops[n])
        case Panic => OpsPanic
        case Done(u, reply, more) =>
          if ops[n].PutOp? && reply.Failed? then OpsPanic
          else OpsDone(u, replies + [reply], events + more)
  }

  function OpStep(s: Store, op: TxnOp): Outcome
    decreases op
  {
    match op
    case PutOp(key, value, lease, wantPrev) => PutStep(s, key, value, lease, wantPrev)
    case GetOp(key, prefix) => GetStep(s, key, prefix)
    case DeleteOp(key) => DeleteStep(s, key)
    case NestedOp(txn) => TxnStep(s, txn)
  }

  /** The branch picked by the comparisons, after which the revision is set to start + 1. */
  function TxnStep(s: Store, txn: Txn): Outcome
    decreases txn
  {
    match OpsStep(s, Chosen(s.kv, txn))
    case OpsPanic => Panic
    case OpsDone(t, replies, events) =>
      var revision := s.revision + 1;
      Done(t.(revision := revision), TxnReply(revision, Succeeds(s.kv, txn), replies), events)
  }

  // ---- leases ----------------------------------------------------------------------------

  function GrantStep(s: Store, ttl: int, id: LeaseId, drawn: LeaseId): Outcome {
    var chosen := if id == 0 then drawn else id;
    if chosen in s.leases then Panic
    else
      var revision := s.revision + 1;
      Done(Store(revision, s.kv, s.leases[chosen := Lease(ttl, ttl, {})]), GrantReply(revision, chosen, ttl), [])
  }

  datatype Removal = Removed(kv: map<Bytes, KeyValue>, events: seq<Event>) | MissingKey

  /** Removes keys one by one, publishing a Delete for each. */
  function RemoveAll(kv: map<Bytes, KeyValue>, order: seq<Bytes>): Removal {
    if order == [] then Removed(kv, [])
    else
      var n := |order| - 1;
      match RemoveAll(kv, order[..n])
      case MissingKey => MissingKey
      case Removed(m, events) =>
        if order[n] !in m then MissingKey
        else Removed(m - {order[n]}, events + [Delete(m[order[n]])])
  }

  function RevokeStep(s: Store, id: LeaseId, order: seq<Bytes>): Outcome {
    if id !in s.leases then Done(s, Failed(LeaseNotFound), [])
    else
      match RemoveAll(s.kv, order)
      case MissingKey => Panic
      case Removed(kv, events) =>
        var revision := s.revision + 1;
        Done(Store(revision, kv, s.leases - {id}), RevokeReply(revision), events)
  }

  function KeepAliveStep(s: Store, id: LeaseId): Outcome {
    if id !in s.leases then Done(s, Failed(LeaseNotFound), [])
    else
      var l := s.leases[id];
      var revision := s.revision + 1;
      Done(Store(revision, s.kv, s.leases[id := l.(ttl := l.granted)]), KeepAliveReply(revision, id, l.granted), [])
  }

  datatype Pass = Passed(kv: map<Bytes, KeyValue>, leases: map<LeaseId, Lease>, events: seq<Event>) | PassPanic

  /** The expiry pass over the leases in the order visited. */
  function ExpiryPass(s: Store, visits: seq<Visit>): Pass {
    if visits == [] then Passed(s.kv, s.leases, [])
    else
      var n := |visits| - 1;
      match ExpiryPass(s, visits[..n])
      case PassPanic => PassPanic
      case Passed(kv, leases, events) =>
        var v := visits[n];
        if v.id !in leases then PassPanic
        else if leases[v.id].ttl - 1 > 0 then
          Passed(kv, leases[v.id := leases[v.id].(ttl := leases[v.id].ttl - 1)], events)
        else
          match RemoveAll(kv, v.keys)
          case MissingKey => PassPanic
          case Removed(kv', more) => Passed(kv', leases - {v.id}, events + more)
  }

  function TickStep(s: Store, visits: seq<Visit>): Outcome {
    match ExpiryPass(s, visits)
    case PassPanic => Panic
    case Passed(kv, leases, events) =>
      Done(Store(if |leases| != |s.leases| then s.revision + 1 else s.revision, kv, leases), TickReply, events)
  }

  // ---- election --------------------------------------------------------------------------

  /** n in lower-case hexadecimal, zero-padded to the given width. */
  function Hex(n: nat, width: nat): Bytes {
    if width == 0 then [] else Hex(n / 16, width - 1) + [HexDigit(n % 16)]
  }

  /** "{name}/{lease:016x}"; a negative lease id prints as its two's complement. */
  function CampaignKey(name: Bytes, lease: LeaseId): Bytes {
    name + [47] + Hex(if lease < 0 then lease + 0x1_0000_0000_0000_0000 else lease, 16)
  }

  /** The first record with the least create revision, as `Iterator::min_by_key` picks it. */
  function MinByCreate(records: seq<KeyValue>): Option<KeyValue> {
    if records == [] then None
    else
      var last := records[|records| - 1];
      match MinByCreate(records[..|records| - 1])
      case None => Some(last)
      case Some(best) => if last.created < best.created then Some(last) else Some(best)
  }

  function Leader(kv: map<Bytes, KeyValue>, name: Bytes): Option<KeyValue>
    requires Rangeable(name)
  {
    MinByCreate(PrefixRange(kv, name))
  }

  function CampaignVerdict(s: Store, name: Bytes, key: Bytes, lease: LeaseId, events: seq<Event>): Outcome {
    if !Rangeable(name) then Panic
    else
      match Leader(s.kv, name)
      case None => Panic
      case Some(leader) => Done(s, if leader.key == key then Elected(s.revision, key, lease) else Waiting(key), events)
  }

  function CampaignStep(s: Store, name: Bytes, value: Bytes, lease: LeaseId): Outcome {
    var key := CampaignKey(name, lease);
    if key in s.kv && s.kv[key].value == value then CampaignVerdict(s, name, key, lease, [])
    else
      var revision := s.revision + 1;
      if lease !in s.leases then Done(s.(revision := revision), Failed(LeaseNotFound), [])
      else
        var kv := KeyValue(key, value, lease, revision, revision);
        CampaignVerdict(Store(revision, s.kv[key := kv], Attach(s.leases, lease, key)), name, key, lease, [Put(kv)])
  }

  function ProclaimStep(s: Store, key: Bytes, value: Bytes): Outcome {
    if key !in s.kv then Done(s, Failed(SessionExpired), [])
    else
      var revision := s.revision + 1;
      var kv := s.kv[key].(value := value, modified := revision);
      Done(Store(revision, s.kv[key := kv], s.leases), ProclaimReply(revision), [Put(kv)])
  }

  function LeaderStep(s: Store, name: Bytes): Outcome {
    if Rangeable(name) then Done(s, LeaderReply(s.revision, Leader(s.kv, name)), []) else Panic
  }

  function ResignStep(s: Store, key: Bytes): Outcome {
    if key !in s.kv then Done(s, Failed(SessionExpired), [])
    else
      var kv := s.kv[key];
      if kv.lease !in s.leases then Panic
      else
        var revision := s.revision + 1;
        Done(Store(revision, s.kv - {key}, Detach(s.leases, kv.lease, key)), ResignReply(revision), [Delete(kv)])
  }

  // ---- requests and runs -----------------------------------------------------------------

  function Step(s: Store, r: Request): Outcome {
    match r
    case PutRequest(key, value, lease, wantPrev) => PutStep(s, key, value, lease, wantPrev)
    case GetRequest(key, prefix) => GetStep(s, key, prefix)
    case DeleteRequest(key) => DeleteStep(s, key)
    case TxnRequest(txn) => TxnStep(s, txn)
    case GrantRequest(ttl, id, drawn) => GrantStep(s, ttl, id, drawn)
    case RevokeRequest(id, order) => RevokeStep(s, id, order)
    case KeepAliveRequest(id) => KeepAliveStep(s, id)
    case TickRequest(visits) => TickStep(s, visits)
    case CampaignRequest(name, value, lease) => CampaignStep(s, name, value, lease)
    case ProclaimRequest(key, value) => ProclaimStep(s, key, value)
    case LeaderRequest(name) => LeaderStep(s, name)
    case ObserveRequest(name) => LeaderStep(s, name)
    case ResignRequest(key) => ResignStep(s, key)
  }

  ghost predicate Enumerates<T(!new)>(order: seq<T>, elems: set<T>) {
    && (forall x :: x in order <==> x in elems)
    && (forall i, j :: 0 <= i < j < |order| ==> order[i] != order[j])
  }

  predicate Visited(visits: seq<Visit>, id: LeaseId) {
    exists v :: v in visits && v.id == id
  }

  /** Distinct leases, each with an enumeration of its keys. */
  ghost predicate Visitable(s: Store, visits: seq<Visit>) {
    && (forall i, j :: 0 <= i < j < |visits| ==> visits[i].id != visits[j].id)
    && (forall v :: v in visits ==> v.id in s.leases && Enumerates(v.keys, s.leases[v.id].keys))
  }

  ghost predicate AllVisited(s: Store, visits: seq<Visit>) {
    forall id :: id in s.leases ==> Visited(visits, id)
  }

  ghost predicate LegalVisits(s: Store, visits: seq<Visit>) {
    Visitable(s, visits) && AllVisited(s, visits)
  }

  /** The values the server can draw: fresh positive lease ids, and enumerations of the hash
      containers it iterates over. */
  ghost predicate Legal(s: Store, r: Request) {
    match r
    case GrantRequest(_, id, drawn) => id == 0 ==> drawn > 0 && drawn !in s.leases
    case RevokeRequest(id, order) => id in s.leases ==> Enumerates(order, s.leases[id].keys)
    case TickRequest(visits) => LegalVisits(s, visits)
    case _ => true
  }

  datatype RunOutcome = Ran(store: Store, events: seq<Event>, replies: seq<Reply>) | Crashed

  function Run(s: Store, rs: seq<Request>): RunOutcome {
    if rs == [] then Ran(s, [], [])
    else
      var n := |rs| - 1;
      match Run(s, rs[..n])
      case Crashed => Crashed
      case Ran(t, events, replies) =>
        match Step(t, rs[n])
        case Panic => Crashed
        case Done(u, reply, more) => Ran(u, events + more, replies + [reply])
  }

  /** Every request of the run draws legal values. */
  ghost predicate LegalRun(s: Store, rs: seq<Request>) {
    rs == [] ||
    (LegalRun(s, rs[..|rs| - 1]) &&
     var o := Run(s, rs[..|rs| - 1]);
     o.Ran? ==> Legal(o.store, rs[|rs| - 1]))
  }

  lemma RunMore(s: Store, rs: seq<Request>, r: Request)
    requires Run(s, rs).Ran? && Step(Run(s, rs).store, r).Done?
    ensures Run(s, rs + [r]).Ran? && Run(s, rs + [r]).store == Step(Run(s, rs).store, r).store
    ensures Run(s, rs + [r]).events == Run(s, rs).events + Step(Run(s, rs).store, r).events
  {
    assert (rs + [r])[..|rs + [r]| - 1] == rs;
  }
}
