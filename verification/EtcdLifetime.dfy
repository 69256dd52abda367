/** How long a lease lives: counted in expiry ticks since its grant or last keep-alive. */
module EtcdLifetime {
  import opened ByteStrings
  import opened EtcdStore
  import opened EtcdLeases

  /** Ticks since the last keep-alive of the lease, or since the start of the run. */
  function TicksSince(rs: seq<Request>, id: LeaseId): nat {
    if rs == [] then 0
    else
      var last := rs[|rs| - 1];
      if last == KeepAliveRequest(id) then 0
      else TicksSince(rs[..|rs| - 1], id) + if last.TickRequest? then 1 else 0
  }

  /** No request of the run revokes the lease or grants one under its id. */
  predicate LeavesAlone(rs: seq<Request>, id: LeaseId) {
    forall r :: r in rs ==>
      && !(r.RevokeRequest? && r.id == id)
      && !(r.GrantRequest? && (if r.id == 0 then r.drawn else r.id) == id)
  }

  function Lifetime(granted: int): int {
    if granted > 1 then granted else 1
  }

  /** At no moment of the run, its end included, had the lease gone unrenewed for its lifetime. */
  predicate AlwaysRenewed(rs: seq<Request>, id: LeaseId, granted: int) {
    TicksSince(rs, id) < Lifetime(granted) && (rs != [] ==> AlwaysRenewed(rs[..|rs| - 1], id, granted))
  }

  // ---- what one request does to one lease ------------------------------------------------

  /** Requests other than its own keep-alive, revocation, grant and the tick leave a lease's
      clock alone. */
  ghost predicate ClocksKept(s: Store, t: Store) {
    && s.leases.Keys == t.leases.Keys
    && forall id :: id in s.leases ==>
         s.leases[id].ttl == t.leases[id].ttl && s.leases[id].granted == t.leases[id].granted
  }

  lemma {:induction false} OpsKeepClocks(s: Store, ops: seq<TxnOp>)
    requires OpsStep(s, ops).OpsDone?
    ensures ClocksKept(s, OpsStep(s, ops).store)
    decreases ops
  {
    if ops != [] {
      var n := |ops| - 1;
      OpsKeepClocks(s, ops[..n]);
      OpKeepsClocks(OpsStep(s, ops[..n]).store, ops[n]);
    }
  }

  lemma {:induction false} OpKeepsClocks(s: Store, op: TxnOp)
    requires OpStep(s, op).Done?
    ensures ClocksKept(s, OpStep(s, op).store)
    decreases op
  {
    match op
    case NestedOp(txn) => OpsKeepClocks(s, Chosen(s.kv, txn));
    case _ =>
  }

  lemma OtherStepsKeepClock(s: Store, r: Request, id: LeaseId)
    requires Step(s, r).Done? && !r.TickRequest? && r != KeepAliveRequest(id) && LeavesAlone([r], id)
    ensures id in Step(s, r).store.leases <==> id in s.leases
    ensures id in s.leases ==>
      Step(s, r).store.leases[id].ttl == s.leases[id].ttl && Step(s, r).store.leases[id].granted == s.leases[id].granted
  {
    assert r in [r];
    match r
    case TxnRequest(txn) => OpKeepsClocks(s, NestedOp(txn));
    case _ =>
  }

  /** The lease's record after a run, given that it was fresh at the start.  Nothing else in the run
      matters: the index may be broken by it, as long as no request panics. */
  lemma {:induction false} ClockAfter(s: Store, rs: seq<Request>, id: LeaseId)
    requires LegalRun(s, rs) && Run(s, rs).Ran? && LeavesAlone(rs, id)
    requires id in s.leases && s.leases[id].ttl == s.leases[id].granted
    ensures id in Run(s, rs).store.leases <==> AlwaysRenewed(rs, id, s.leases[id].granted)
    ensures id in Run(s, rs).store.leases ==>
      && Run(s, rs).store.leases[id].granted == s.leases[id].granted
      && Run(s, rs).store.leases[id].ttl == s.leases[id].granted - TicksSince(rs, id)
  {
    if rs != [] {
      var n := |rs| - 1;
      var r := rs[n];
      assert rs == rs[..n] + [r];
      ClockAfter(s, rs[..n], id);
      var t := Run(s, rs[..n]).store;
      assert r in rs;
      if r.TickRequest? {
        TickLeases(t, r.visits);
      } else if r != KeepAliveRequest(id) {
        assert LeavesAlone([r], id);
        OtherStepsKeepClock(t, r, id);
      }
    }
  }

  /** The leases but one are as before. */
  ghost predicate OtherLeasesKept(s: Store, t: Store, id: LeaseId) {
    forall x :: x != id ==> (x in t.leases <==> x in s.leases) && (x in s.leases ==> t.leases[x] == s.leases[x])
  }

  /** A grant fails exactly on an id that is taken; otherwise the lease asked for, or else the one drawn,
      has its whole time before it and no keys, and the answer names it. */
  lemma GrantAnswer(s: Store, ttl: int, id: LeaseId, drawn: LeaseId)
    ensures var o := Step(s, GrantRequest(ttl, id, drawn)); var chosen := if id == 0 then drawn else id;
      && (o.Done? <==> chosen !in s.leases)
      && (o.Done? ==>
            && o.reply == GrantReply(s.revision + 1, chosen, ttl) && o.events == [] && o.store.kv == s.kv
            && chosen in o.store.leases && o.store.leases[chosen].keys == {}
            && o.store.leases[chosen].ttl == o.store.leases[chosen].granted == ttl
            && OtherLeasesKept(s, o.store, chosen))
  {
  }

  /** A keep-alive is refused exactly for an unknown lease; otherwise it gives the lease its whole time
      back, says how long that is, and leaves keys and records alone. */
  lemma KeepAliveAnswer(s: Store, id: LeaseId)
    ensures var o := Step(s, KeepAliveRequest(id));
      if id !in s.leases then o == Done(s, Failed(LeaseNotFound), [])
      else
        && o.Done? && id in o.store.leases && o.store.leases[id].ttl == o.store.leases[id].granted
        && o.store.leases[id].granted == s.leases[id].granted && o.store.leases[id].keys == s.leases[id].keys
        && o.reply == KeepAliveReply(s.revision + 1, id, s.leases[id].granted) && o.events == []
        && o.store.kv == s.kv && OtherLeasesKept(s, o.store, id)
  {
  }

  /** A revocation is refused exactly for an unknown lease. */
  lemma RevokeAnswer(s: Store, id: LeaseId, order: seq<Bytes>)
    requires Legal(s, RevokeRequest(id, order)) && Step(s, RevokeRequest(id, order)).Done?
    ensures var o := Step(s, RevokeRequest(id, order));
      if id !in s.leases then o == Done(s, Failed(LeaseNotFound), [])
      else o.reply == RevokeReply(s.revision + 1) && id !in o.store.leases && OtherLeasesKept(s, o.store, id)
  {
    if id in s.leases { RevokeDoneIff(s, id, order); }
  }

  /** From its grant on, through any run that neither panics nor revokes or re-grants it, the lease that the
      answer named is alive if and only if no stretch of max(granted, 1) ticks went by without a keep-alive:
      exactly then is one more keep-alive answered with its granted time, and not refused. */
  lemma {:induction false} LeaseLivesWhileRenewed(s: Store, ttl: int, id: LeaseId, drawn: LeaseId, rs: seq<Request>)
    requires Step(s, GrantRequest(ttl, id, drawn)).Done?
    requires var o := Step(s, GrantRequest(ttl, id, drawn));
      o.reply.GrantReply? ==> LegalRun(o.store, rs) && Run(o.store, rs).Ran? && LeavesAlone(rs, o.reply.id)
    ensures var o := Step(s, GrantRequest(ttl, id, drawn));
      && o.reply == GrantReply(s.revision + 1, if id == 0 then drawn else id, ttl)
      && var t := Run(o.store, rs).store; var answer := Step(t, KeepAliveRequest(o.reply.id)).reply;
      && (o.reply.id in t.leases <==> AlwaysRenewed(rs, o.reply.id, ttl))
      && answer == if AlwaysRenewed(rs, o.reply.id, ttl) then KeepAliveReply(t.revision + 1, o.reply.id, ttl)
                   else Failed(LeaseNotFound)
  {
    GrantAnswer(s, ttl, id, drawn);
    var o := Step(s, GrantRequest(ttl, id, drawn));
    ClockAfter(o.store, rs, o.reply.id);
    KeepAliveAnswer(Run(o.store, rs).store, o.reply.id);
  }
}
