/** What `leader(name)` returns, stated without the range scan: the record under the prefix with
    the least create revision, the smaller key winning a tie. */
module EtcdLeader {
  import opened ByteStrings
  import opened EtcdStore
  import opened EtcdReplay

  /** Older first; among equally old records the smaller key first. */
  predicate Before(a: KeyValue, b: KeyValue) {
    a.created < b.created || (a.created == b.created && ByteStrings.Less(a.key, b.key))
  }

  ghost predicate IsLeader(kv: map<Bytes, KeyValue>, name: Bytes, r: KeyValue) {
    && r.key in kv && kv[r.key] == r && name <= r.key
    && forall k :: k in kv && name <= k && k != r.key ==> Before(r, kv[k])
  }

  /** records[i] is the first of the least. */
  ghost predicate FirstLeast(records: seq<KeyValue>, i: nat) {
    && i < |records|
    && (forall j :: 0 <= j < i ==> records[i].created < records[j].created)
    && (forall j :: i <= j < |records| ==> records[i].created <= records[j].created)
  }

  lemma {:induction false} MinByCreateSpec(records: seq<KeyValue>) returns (i: nat)
    requires records != []
    ensures FirstLeast(records, i) && MinByCreate(records) == Some(records[i])
  {
    var n := |records| - 1;
    if n == 0 {
      i := 0;
    } else {
      var init := records[..n];
      i := MinByCreateSpec(init);
      assert forall j :: 0 <= j < n ==> init[j] == records[j];
      if records[n].created < records[i].created { i := n; }
    }
  }

  ghost predicate AscendingKeys(kvs: seq<KeyValue>) {
    forall i, j :: 0 <= i < j < |kvs| ==> ByteStrings.Less(kvs[i].key, kvs[j].key)
  }

  /** records lists the records under the name, in key order. */
  ghost predicate Lists(kv: map<Bytes, KeyValue>, name: Bytes, records: seq<KeyValue>) {
    && AscendingKeys(records)
    && (forall i :: 0 <= i < |records| ==>
         records[i].key in kv && kv[records[i].key] == records[i] && name <= records[i].key)
    && (forall k :: k in kv && name <= k ==> kv[k] in records)
  }

  /** The range scan yields the records under the prefix, all of them, in key order. */
  lemma RangeRecords(kv: map<Bytes, KeyValue>, name: Bytes)
    requires WellKeyed(kv) && Rangeable(name)
    ensures Lists(kv, name, PrefixRange(kv, name))
  {
    var keys := Ascending(RangeKeys(kv, name));
    var records := PrefixRange(kv, name);
    forall i | 0 <= i < |keys|
      ensures keys[i] in kv && records[i] == kv[keys[i]] && records[i].key == keys[i] && name <= keys[i]
    {
      assert keys[i] in keys && keys[i] in RangeKeys(kv, name);
      RangeIsPrefix(name, keys[i]);
    }
    forall k | k in kv && name <= k ensures kv[k] in records {
      RangeIsPrefix(name, k);
      assert k in RangeKeys(kv, name);
      var i :| 0 <= i < |keys| && keys[i] == k;
      assert records[i] == kv[k];
    }
  }

  lemma FirstLeastLeads(kv: map<Bytes, KeyValue>, name: Bytes, records: seq<KeyValue>, i: nat)
    requires WellKeyed(kv) && Lists(kv, name, records) && FirstLeast(records, i)
    ensures IsLeader(kv, name, records[i])
  {
    var r := records[i];
    forall k | k in kv && name <= k && k != r.key ensures Before(r, kv[k]) {
      var j :| 0 <= j < |records| && records[j] == kv[k];
      assert kv[k].key == k;
    }
  }

  lemma LeaderSpec(kv: map<Bytes, KeyValue>, name: Bytes)
    requires WellKeyed(kv) && Rangeable(name)
    ensures Leader(kv, name).None? <==> forall k :: k in kv ==> !(name <= k)
    ensures Leader(kv, name).Some? ==> IsLeader(kv, name, Leader(kv, name).value)
  {
    var records := PrefixRange(kv, name);
    RangeRecords(kv, name);
    if k :| k in kv && name <= k { assert kv[k] in records; }
    if records != [] {
      var i := MinByCreateSpec(records);
      FirstLeastLeads(kv, name, records, i);
    }
  }

  lemma LeaderUnique(kv: map<Bytes, KeyValue>, name: Bytes, r: KeyValue)
    requires WellKeyed(kv) && Rangeable(name)
    requires IsLeader(kv, name, r)
    ensures Leader(kv, name) == Some(r)
  {
    LeaderSpec(kv, name);
    var l := Leader(kv, name).value;
    LessTrichotomy(l.key, r.key);
  }

  /** The leader depends only on the records under the prefix. */
  lemma LeaderLocal(kv: map<Bytes, KeyValue>, kv': map<Bytes, KeyValue>, name: Bytes)
    requires WellKeyed(kv) && WellKeyed(kv') && Rangeable(name)
    requires forall k :: name <= k ==> Lookup(kv, k) == Lookup(kv', k)
    ensures Leader(kv, name) == Leader(kv', name)
  {
    LeaderSpec(kv, name);
    LeaderSpec(kv', name);
    assert forall k :: k in kv && name <= k ==> Lookup(kv, k) == Lookup(kv', k);
    assert forall k :: k in kv' && name <= k ==> Lookup(kv, k) == Lookup(kv', k);
    if Leader(kv, name).Some? {
      LeaderUnique(kv', name, Leader(kv, name).value);
    }
  }

  /** No leader change goes unannounced: if no published event is under the prefix, no run of
      requests has changed the leader record. */
  lemma {:induction false} LeaderChangeIsAnnounced(s: Store, rs: seq<Request>, name: Bytes)
    requires WellKeyed(s.kv) && Rangeable(name)
    requires Run(s, rs).Ran?
    requires Leader(s.kv, name) != Leader(Run(s, rs).store.kv, name)
    ensures exists e :: e in Run(s, rs).events && name <= e.kv.key
  {
    var o := Run(s, rs);
    RunReplays(s, rs);
    if forall e :: e in o.events ==> !(name <= e.kv.key) {
      forall k | name <= k ensures Lookup(s.kv, k) == Lookup(o.store.kv, k) {
        UntouchedKey(s.kv, o.events, k);
      }
      LeaderLocal(s.kv, o.store.kv, name);
    }
  }
}
