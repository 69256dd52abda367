/** What the requests of the key-value part mean to a reader. */
module EtcdReads {
  import opened ByteStrings
  import opened EtcdStore
  import opened EtcdReplay
  import opened EtcdLeader

  /** A prefix read lists exactly the records whose key starts with the prefix, each once, in key
      order; it fails exactly on prefixes whose range has no end. */
  lemma PrefixGetExact(s: Store, prefix: Bytes)
    requires WellKeyed(s.kv)
    ensures GetStep(s, prefix, true).Panic? <==> !Rangeable(prefix)
    ensures GetStep(s, prefix, true).Done? ==>
      && GetStep(s, prefix, true).store == s
      && AscendingKeys(GetStep(s, prefix, true).reply.kvs)
      && forall r: KeyValue :: r in GetStep(s, prefix, true).reply.kvs <==>
           r.key in s.kv && s.kv[r.key] == r && prefix <= r.key
  {
    if Rangeable(prefix) {
      var kvs := PrefixRange(s.kv, prefix);
      RangeRecords(s.kv, prefix);
      forall r: KeyValue ensures r in kvs <==> r.key in s.kv && s.kv[r.key] == r && prefix <= r.key {
        if r in kvs { var i :| 0 <= i < |kvs| && kvs[i] == r; }
      }
    }
  }

  /** No other key's record differs. */
  ghost predicate OthersKept(s: Store, t: Store, key: Bytes) {
    forall k :: k != key ==> Lookup(t.kv, k) == Lookup(s.kv, k)
  }

  /** A put is refused exactly for an unknown lease, and then changes nothing; otherwise it is answered,
      if asked, with what a read would have shown before, and touches no other key. */
  lemma PutAnswer(s: Store, key: Bytes, value: Bytes, lease: LeaseId, wantPrev: bool)
    requires Step(s, PutRequest(key, value, lease, wantPrev)).Done?
    ensures var o := Step(s, PutRequest(key, value, lease, wantPrev));
      var before := Step(s, GetRequest(key, false)).reply.kvs;
      if lease != 0 && lease !in s.leases then o == Done(s, Failed(LeaseNotFound), [])
      else
        && o.reply == PutReply(s.revision + 1, if wantPrev && before != [] then Some(before[0]) else None)
        && OthersKept(s, o.store, key) && |o.events| == 1 && o.events[0].Put?
  {
  }

  /** A delete of a missing key changes nothing; one of a stored key announces the record a read would
      have shown, and touches no other key. */
  lemma DeleteAnswer(s: Store, key: Bytes)
    requires Step(s, DeleteRequest(key)).Done?
    ensures var o := Step(s, DeleteRequest(key)); var before := Step(s, GetRequest(key, false)).reply.kvs;
      if before == [] then o == Done(s, DeleteReply(s.revision, 0), [])
      else
        && o.reply == DeleteReply(s.revision + 1, 1) && o.events == [Event.Delete(before[0])]
        && OthersKept(s, o.store, key)
  {
  }

  /** The last event of a key. */
  function LastEvent(events: seq<Event>, key: Bytes): Option<Event> {
    if events == [] then None
    else
      var last := events[|events| - 1];
      if last.kv.key == key then Some(last) else LastEvent(events[..|events| - 1], key)
  }

  lemma {:induction false} ReplayTellsLast(kv: map<Bytes, KeyValue>, events: seq<Event>, key: Bytes)
    ensures Lookup(Replay(kv, events), key) ==
      var e := LastEvent(events, key);
      if e.None? then Lookup(kv, key) else if e.value.Put? then Some(e.value.kv) else None
  {
    if events != [] { ReplayTellsLast(kv, events[..|events| - 1], key); }
  }

  /** After any run a get of a key answers with the record of the last event of the key, with nothing if
      that was a deletion, and as before if there was none. */
  lemma GetTellsLastEvent(s: Store, rs: seq<Request>, key: Bytes)
    requires WellKeyed(s.kv) && Run(s, rs).Ran?
    ensures var o := Run(s, rs); var e := LastEvent(o.events, key);
      GetStep(o.store, key, false).reply.kvs ==
        if e.None? then GetStep(s, key, false).reply.kvs else if e.value.Put? then [e.value.kv] else []
  {
    RunReplays(s, rs);
    ReplayTellsLast(s.kv, Run(s, rs).events, key);
    var t := Run(s, rs).store;
    assert GetStep(t, key, false).reply.kvs == if key in t.kv then [t.kv[key]] else [];
  }

  /** So a put is read back, with the revision it announced and the creation date it kept, after any run
      that publishes no event of the key; and it told, if asked, what a read would have shown before. */
  lemma PutThenGet(s: Store, key: Bytes, value: Bytes, lease: LeaseId, wantPrev: bool, rs: seq<Request>)
    requires WellKeyed(s.kv) && PutStep(s, key, value, lease, wantPrev).Done?
    requires var o := PutStep(s, key, value, lease, wantPrev);
      !o.reply.Failed? && Run(o.store, rs).Ran? && LastEvent(Run(o.store, rs).events, key).None?
    ensures var o := PutStep(s, key, value, lease, wantPrev); var before := GetStep(s, key, false).reply.kvs;
      var created := if before == [] then o.reply.revision else before[0].created;
      GetStep(Run(o.store, rs).store, key, false).reply.kvs ==
        [KeyValue(key, value, lease, created, o.reply.revision)]
    ensures var o := PutStep(s, key, value, lease, wantPrev); var before := GetStep(s, key, false).reply.kvs;
      && o.reply == PutReply(s.revision + 1, if wantPrev && before != [] then Some(before[0]) else None)
      && OthersKept(s, o.store, key)
  {
    PutAnswer(s, key, value, lease, wantPrev);
    GetTellsLastEvent(PutStep(s, key, value, lease, wantPrev).store, rs, key);
  }

  /** And a deleted key stays unread, after any run that publishes no event of it. */
  lemma DeleteThenGet(s: Store, key: Bytes, rs: seq<Request>)
    requires WellKeyed(s.kv) && DeleteStep(s, key).Done? && Run(DeleteStep(s, key).store, rs).Ran?
    requires LastEvent(Run(DeleteStep(s, key).store, rs).events, key).None?
    ensures DeleteStep(s, key).reply.deleted == |GetStep(s, key, false).reply.kvs|
    ensures GetStep(Run(DeleteStep(s, key).store, rs).store, key, false).reply.kvs == []
    ensures OthersKept(s, DeleteStep(s, key).store, key)
  {
    DeleteAnswer(s, key);
    GetTellsLastEvent(DeleteStep(s, key).store, rs, key);
  }
}
