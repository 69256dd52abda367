/** Election safety over whole runs.  Leadership goes by create revision, and keys only age; so a leader
    can be displaced, its key surviving, only where its own create revision lies above the store
    revision, which transactions can bring about. */
module EtcdElection {
  import opened ByteStrings
  import opened EtcdStore
  import opened EtcdReplay
  import opened EtcdLeader
  import opened EtcdAges
  import opened EtcdStamps

  /** The key is in both stores and was not re-created in between. */
  predicate Survives(s: Store, t: Store, k: Bytes) {
    k in s.kv && k in t.kv && s.kv[k].created == t.kv[k].created
  }

  /** Succession follows the order of creation: after any run, the leader is the oldest candidate of
      the start that survived, whoever joined meanwhile, if that one was not dated in the future. */
  lemma {:induction false} LeaderIsOldestSurvivor(s: Store, rs: seq<Request>, name: Bytes, k: Bytes)
    requires WellKeyed(s.kv) && Rangeable(name) && Run(s, rs).Ran?
    requires name <= k && Survives(s, Run(s, rs).store, k) && s.kv[k].created <= s.revision
    requires forall other :: name <= other && other != k && Survives(s, Run(s, rs).store, other) ==>
      Before(s.kv[k], s.kv[other])
    ensures Leader(Run(s, rs).store.kv, name) == Some(Run(s, rs).store.kv[k])
  {
    var t := Run(s, rs).store;
    RunReplays(s, rs);
    RunAges(s, rs);
    forall other | other in t.kv && name <= other && other != k ensures Before(t.kv[k], t.kv[other]) {
      if Survives(s, t, other) { assert Before(s.kv[k], s.kv[other]); }
    }
    LeaderUnique(t.kv, name, t.kv[k]);
  }

  /** No request can displace the leader while its key survives: it is not dated in the future; or it is
      dated by the next revision, and every smaller key under the name is one no request can create. */
  ghost predicate Safe(s: Store, name: Bytes)
    requires Rangeable(name)
  {
    var o := Leader(s.kv, name);
    && o.Some?
    && (|| o.value.created <= s.revision
        || (&& o.value.created == s.revision + 1
            && forall c :: name <= c && ByteStrings.Less(c, o.value.key) ==> !CanCreate(s, c)))
  }

  /** In particular wherever create revisions are in order. */
  lemma StampedIsSafe(s: Store, name: Bytes)
    requires WellKeyed(s.kv) && Stamped(s) && Rangeable(name) && Leader(s.kv, name).Some?
    ensures Safe(s, name)
  {
    LeaderSpec(s.kv, name);
  }

  lemma SameRecordsSafe(s: Store, t: Store, name: Bytes)
    requires Rangeable(name) && Safe(s, name)
    requires t.kv == s.kv && t.leases.Keys == s.leases.Keys && t.revision == s.revision
    ensures Safe(t, name)
  {
    forall c | CanCreate(t, c) ensures CanCreate(s, c) {}
  }

  /** One request leaves a safe leader in office if its key survives. */
  lemma {:induction false} StepSafe(s: Store, r: Request, name: Bytes)
    requires WellKeyed(s.kv) && Rangeable(name) && Safe(s, name) && Step(s, r).Done?
    requires Survives(s, Step(s, r).store, Leader(s.kv, name).value.key)
    ensures var t := Step(s, r).store;
      Safe(t, name) && Leader(t.kv, name).value.key == Leader(s.kv, name).value.key
  {
    var t := Step(s, r).store;
    StepAges(s, r);
    if t.revision == s.revision {
      StepStill(s, r);
      SameRecordsSafe(s, t, name);
    } else {
      StepReplays(s, r);
      LeaderSpec(s.kv, name);
      var l := Leader(s.kv, name).value;
      forall other | other in t.kv && name <= other && other != l.key ensures Before(t.kv[l.key], t.kv[other]) {
        LessTrichotomy(l.key, other);
        if other in s.kv { assert Before(l, s.kv[other]); }
      }
      LeaderUnique(t.kv, name, t.kv[l.key]);
    }
  }

  /** A key not dated beyond the next revision that survives a run survived each part of it. */
  lemma {:induction false} SurvivesBefore(s: Store, rs: seq<Request>, k: Bytes)
    requires rs != [] && Run(s, rs).Ran? && Survives(s, Run(s, rs).store, k) && s.kv[k].created <= s.revision + 1
    ensures var t := Run(s, rs[..|rs| - 1]).store; Survives(s, t, k) && Survives(t, Run(s, rs).store, k)
  {
    var init := rs[..|rs| - 1];
    RunAges(s, init);
    StepAges(Run(s, init).store, rs[|rs| - 1]);
    if Run(s, init).store.revision <= s.revision { RunStill(s, init); }
  }

  /** A safe leader stays leader until its key is removed or re-created, whatever runs. */
  lemma {:induction false} LeaderStays(s: Store, rs: seq<Request>, name: Bytes)
    requires WellKeyed(s.kv) && Rangeable(name) && Safe(s, name) && Run(s, rs).Ran?
    requires Survives(s, Run(s, rs).store, Leader(s.kv, name).value.key)
    ensures WellKeyed(Run(s, rs).store.kv) && Safe(Run(s, rs).store, name)
    ensures Leader(Run(s, rs).store.kv, name).value.key == Leader(s.kv, name).value.key
  {
    RunReplays(s, rs);
    if rs != [] {
      var n := |rs| - 1;
      LeaderSpec(s.kv, name);
      SurvivesBefore(s, rs, Leader(s.kv, name).value.key);
      LeaderStays(s, rs[..n], name);
      StepSafe(Run(s, rs[..n]).store, rs[n], name);
    }
  }

  // ---- exactly when a leader is safe -----------------------------------------------------

  /** A record dated by the next revision displaces a leader of another key if and only if the leader is
      dated later, or alike under a greater key. */
  lemma RecordDisplacesIff(s: Store, name: Bytes, record: KeyValue)
    requires WellKeyed(s.kv) && Rangeable(name) && Leader(s.kv, name).Some?
    requires name <= record.key != Leader(s.kv, name).value.key && record.created == s.revision + 1
    ensures var l := Leader(s.kv, name).value; var after := Leader(s.kv[record.key := record], name);
      && after.Some?
      && (after.value.key == l.key <==>
            l.created <= s.revision || (l.created == s.revision + 1 && ByteStrings.Less(l.key, record.key)))
  {
    LeaderSpec(s.kv, name);
    var l, kv := Leader(s.kv, name).value, s.kv[record.key := record];
    LeaderSpec(kv, name);
    LessTrichotomy(l.key, record.key);
    var after := Leader(kv, name).value;
    assert after.key == record.key || Before(after, kv[record.key]);
    if Before(l, record) { LeaderUnique(kv, name, l); }
  }

  /** So a put of a new key under the name leaves the leader in office exactly then. */
  lemma PutDisplacesIff(s: Store, name: Bytes, c: Bytes, v: Bytes, lease: LeaseId, wantPrev: bool)
    requires WellKeyed(s.kv) && Rangeable(name) && Leader(s.kv, name).Some? && name <= c && c !in s.kv
    requires lease == 0 || lease in s.leases
    ensures var o := PutStep(s, c, v, lease, wantPrev); var l := Leader(s.kv, name).value;
      && o.Done? && Survives(s, o.store, l.key) && Leader(o.store.kv, name).Some?
      && (Leader(o.store.kv, name).value.key == l.key <==>
            l.created <= s.revision || (l.created == s.revision + 1 && ByteStrings.Less(l.key, c)))
  {
    var record := KeyValue(c, v, lease, s.revision + 1, s.revision + 1);
    LeaderSpec(s.kv, name);
    assert PutStep(s, c, v, lease, wantPrev).Done? && PutStep(s, c, v, lease, wantPrev).store.kv == s.kv[c := record];
    RecordDisplacesIff(s, name, record);
  }

  /** The leader of the start, if its key survives the run, still leads. */
  ghost predicate KeepsLeader(s: Store, rs: seq<Request>, name: Bytes)
    requires Rangeable(name) && Leader(s.kv, name).Some?
  {
    var o := Run(s, rs);
    o.Ran? && Survives(s, o.store, Leader(s.kv, name).value.key) ==>
      Leader(o.store.kv, name).Some? && Leader(o.store.kv, name).value.key == Leader(s.kv, name).value.key
  }

  /** A request that only writes a record which displaces the leader. */
  lemma RecordOusts(s: Store, r: Request, name: Bytes, record: KeyValue)
    requires WellKeyed(s.kv) && Rangeable(name) && Leader(s.kv, name).Some? && name <= record.key
    requires Step(s, r).Done? && Step(s, r).store.kv == s.kv[record.key := record]
    requires record.created == s.revision + 1 && var l := Leader(s.kv, name).value;
      record.created < l.created || (l.created == record.created && ByteStrings.Less(record.key, l.key))
    requires record.key != Leader(s.kv, name).value.key
    ensures !KeepsLeader(s, [r], name)
  {
    assert [r][..0] == [];
    assert Run(s, []) == Ran(s, [], []);
    LessTrichotomy(record.key, Leader(s.kv, name).value.key);
    LeaderSpec(s.kv, name);
    RecordDisplacesIff(s, name, record);
  }

  lemma {:induction false} LongerThanAll(keys: set<Bytes>) returns (n: nat)
    ensures forall k :: k in keys ==> |k| <= n
  {
    if keys == {} {
      n := 0;
    } else {
      var k :| k in keys;
      n := LongerThanAll(keys - {k});
      if n < |k| { n := |k|; }
    }
  }

  lemma NewKeyUnder(kv: map<Bytes, KeyValue>, name: Bytes) returns (c: Bytes)
    ensures name <= c && c !in kv
  {
    var n := LongerThanAll(kv.Keys);
    c := name + seq(n + 1, i => 0);
  }

  /** A campaign with a new value re-creates its key. */
  lemma CampaignRecreates(s: Store, n: Bytes, value: Bytes, id: LeaseId)
    requires WellKeyed(s.kv) && Rangeable(n) && id in s.leases
    requires var c := CampaignKey(n, id); c in s.kv && s.kv[c].value != value
    ensures var c := CampaignKey(n, id); var o := CampaignStep(s, n, value, id);
      o.Done? && o.store.kv == s.kv[c := KeyValue(c, value, id, s.revision + 1, s.revision + 1)]
  {
    var c := CampaignKey(n, id);
    var kv := s.kv[c := KeyValue(c, value, id, s.revision + 1, s.revision + 1)];
    assert WellKeyed(kv);
    LeaderSpec(kv, n);
    assert c[..|n|] == n && n <= c && c in kv;
  }

  /** If that key is smaller than the leader's and alike in date, it displaces the leader. */
  lemma CampaignDisplaces(s: Store, name: Bytes, n: Bytes, value: Bytes, id: LeaseId)
    requires WellKeyed(s.kv) && Rangeable(name) && Leader(s.kv, name).Some? && name <= CampaignKey(n, id)
    requires var l := Leader(s.kv, name).value;
      l.created == s.revision + 1 && ByteStrings.Less(CampaignKey(n, id), l.key)
    requires var c := CampaignKey(n, id); c in s.kv && s.kv[c].value != value
    requires Rangeable(n) && id in s.leases
    ensures !KeepsLeader(s, [CampaignRequest(n, value, id)], name)
  {
    LessTrichotomy(CampaignKey(n, id), Leader(s.kv, name).value.key);
    CampaignRecreates(s, n, value, id);
    RecordOusts(s, CampaignRequest(n, value, id), name,
                KeyValue(CampaignKey(n, id), value, id, s.revision + 1, s.revision + 1));
  }

  lemma PutDisplaces(s: Store, name: Bytes, c: Bytes)
    requires WellKeyed(s.kv) && Rangeable(name) && Leader(s.kv, name).Some? && name <= c && c !in s.kv
    requires var l := Leader(s.kv, name).value;
      s.revision + 1 < l.created || (l.created == s.revision + 1 && ByteStrings.Less(c, l.key))
    ensures !KeepsLeader(s, [PutRequest(c, [], 0, false)], name)
  {
    LeaderSpec(s.kv, name);
    RecordOusts(s, PutRequest(c, [], 0, false), name, KeyValue(c, [], 0, s.revision + 1, s.revision + 1));
  }

  /** Exactly when: a leader keeps its office through every run its key survives if and only if it is
      safe; otherwise a single put or campaign displaces it. */
  lemma {:induction false} LeaderSafeIff(s: Store, name: Bytes)
    requires WellKeyed(s.kv) && Rangeable(name) && Leader(s.kv, name).Some?
    ensures Safe(s, name) <==> forall rs :: KeepsLeader(s, rs, name)
    ensures !Safe(s, name) ==> exists r: Request :: (r.PutRequest? || r.CampaignRequest?) && !KeepsLeader(s, [r], name)
  {
    var l := Leader(s.kv, name).value;
    if Safe(s, name) {
      forall rs ensures KeepsLeader(s, rs, name) {
        if Run(s, rs).Ran? && Survives(s, Run(s, rs).store, l.key) { LeaderStays(s, rs, name); }
      }
    } else if l.created > s.revision + 1 {
      var c := NewKeyUnder(s.kv, name);
      PutDisplaces(s, name, c);
    } else {
      var c :| name <= c && ByteStrings.Less(c, l.key) && CanCreate(s, c);
      if c !in s.kv {
        PutDisplaces(s, name, c);
      } else {
        var n, id :| id in s.leases && Rangeable(n) && c == CampaignKey(n, id);
        CampaignDisplaces(s, name, n, s.kv[c].value + [0], id);
      }
    }
  }

  // ---- mutual exclusion ------------------------------------------------------------------

  function Pow16(w: nat): nat {
    if w == 0 then 1 else 16 * Pow16(w - 1)
  }

  predicate LowerHex(c: byte) {
    48 <= c <= 57 || 97 <= c <= 102
  }

  /** The number that lower-case hexadecimal digits stand for, most significant first. */
  function Number(digits: Bytes): int {
    if digits == [] then 0
    else
      var last := digits[|digits| - 1];
      16 * Number(digits[..|digits| - 1]) + if last <= 57 then (last as int) - 48 else (last as int) - 87
  }

  lemma {:induction false} HexReads(n: nat, w: nat)
    requires n < Pow16(w)
    ensures |Hex(n, w)| == w && Number(Hex(n, w)) == n && forall c :: c in Hex(n, w) ==> LowerHex(c)
  {
    if w > 0 {
      HexReads(n / 16, w - 1);
      var init := Hex(n / 16, w - 1);
      assert Hex(n, w)[..w - 1] == init;
    }
  }

  /** A candidate's key is the name, a slash and sixteen lower-case digits of the lease id, a negative id
      taken modulo 2^64. */
  lemma CampaignKeySpelled(name: Bytes, lease: LeaseId)
    ensures var key := CampaignKey(name, lease);
      && |key| == |name| + 17 && name <= key && key[|name|] == 47
      && (forall i :: |name| < i < |key| ==> LowerHex(key[i]))
      && Number(key[|name| + 1..]) == if lease < 0 then lease + 0x1_0000_0000_0000_0000 else lease
  {
    var n: nat := if lease < 0 then lease + 0x1_0000_0000_0000_0000 else lease;
    assert Pow16(4) == 0x1_0000;
    assert Pow16(8) == 0x1_0000_0000;
    assert Pow16(12) == 0x1_0000_0000_0000;
    assert Pow16(16) == 0x1_0000_0000_0000_0000;
    HexReads(n, 16);
    var key := CampaignKey(name, lease);
    assert key[|name| + 1..] == Hex(n, 16);
    forall i | |name| < i < |key| ensures LowerHex(key[i]) { assert key[i] in Hex(n, 16); }
  }

  /** Different leases campaign for a name under different keys. */
  lemma CampaignKeyInjective(name: Bytes, a: LeaseId, b: LeaseId)
    requires CampaignKey(name, a) == CampaignKey(name, b)
    ensures a == b
  {
    CampaignKeySpelled(name, a);
    CampaignKeySpelled(name, b);
  }

  /** An elected candidate is the leader, and a campaign touches no key but the candidate's. */
  lemma CampaignEffect(s: Store, name: Bytes, value: Bytes, lease: LeaseId)
    requires CampaignStep(s, name, value, lease).Done?
    ensures var o := CampaignStep(s, name, value, lease);
      && (forall k :: k != CampaignKey(name, lease) ==> Lookup(o.store.kv, k) == Lookup(s.kv, k))
      && (o.reply.Elected? ==> Rangeable(name) && Leader(o.store.kv, name).Some?
                               && Leader(o.store.kv, name).value.key == CampaignKey(name, lease))
  {
  }

  /** A candidate elected by a bid it has just written is safe, in whatever state the server is. */
  lemma WrittenBidIsSafe(s: Store, name: Bytes, value: Bytes, lease: LeaseId)
    requires WellKeyed(s.kv) && Rangeable(name) && CampaignStep(s, name, value, lease).Done?
    requires var o := CampaignStep(s, name, value, lease); o.reply.Elected? && o.events != []
    ensures Safe(CampaignStep(s, name, value, lease).store, name)
  {
    CampaignReplays(s, name, value, lease);
    LeaderSpec(CampaignStep(s, name, value, lease).store.kv, name);
  }

  lemma CampaignKeepsLeader(s: Store, name: Bytes, value: Bytes, lease: LeaseId)
    requires WellKeyed(s.kv) && Rangeable(name) && Safe(s, name)
    requires Leader(s.kv, name).value.key != CampaignKey(name, lease)
    ensures var o := CampaignStep(s, name, value, lease); o.Done? ==> !o.reply.Elected?
  {
    var o := CampaignStep(s, name, value, lease);
    if o.Done? {
      LeaderSpec(s.kv, name);
      CampaignEffect(s, name, value, lease);
      assert Lookup(o.store.kv, Leader(s.kv, name).value.key) == Lookup(s.kv, Leader(s.kv, name).value.key);
      StepSafe(s, CampaignRequest(name, value, lease), name);
    }
  }

  /** While a safe leader's key survives, a campaign under another key is not elected. */
  lemma {:induction false} RivalWaits(s: Store, rs: seq<Request>, name: Bytes, value: Bytes, lease: LeaseId)
    requires WellKeyed(s.kv) && Rangeable(name) && Safe(s, name) && Run(s, rs).Ran?
    requires Survives(s, Run(s, rs).store, Leader(s.kv, name).value.key)
    requires Leader(s.kv, name).value.key != CampaignKey(name, lease)
    ensures var o := CampaignStep(Run(s, rs).store, name, value, lease); o.Done? ==> !o.reply.Elected?
  {
    LeaderStays(s, rs, name);
    CampaignKeepsLeader(Run(s, rs).store, name, value, lease);
  }

  // ---- what an unsafe leader suffers ------------------------------------------------------

  function WithNewKey(s: Store, k: Bytes, v: Bytes): Store {
    Store(s.revision + 1, s.kv[k := KeyValue(k, v, 0, s.revision + 1, s.revision + 1)], s.leases)
  }

  /** The store after a transaction that creates a and then b. */
  function WithTwoKeys(s: Store, a: Bytes, b: Bytes, v: Bytes): Store {
    WithNewKey(WithNewKey(s, a, v), b, v).(revision := s.revision + 1)
  }

  function TwoPutTxn(a: Bytes, b: Bytes, v: Bytes): Txn {
    Txn([], [PutOp(a, v, 0, false), PutOp(b, v, 0, false)], [])
  }

  lemma TwoPuts(s: Store, a: Bytes, b: Bytes, v: Bytes)
    requires a !in s.kv && b !in s.kv && a != b
    ensures TxnStep(s, TwoPutTxn(a, b, v)).Done? && TxnStep(s, TwoPutTxn(a, b, v)).store == WithTwoKeys(s, a, b, v)
  {
    var p, q := PutOp(a, v, 0, false), PutOp(b, v, 0, false);
    assert [p, q][..1] == [p] && [p][..0] == [];
    assert OpsStep(s, []) == OpsDone(s, [], []);
    assert OpsStep(s, [p]).OpsDone? && OpsStep(s, [p]).store == WithNewKey(s, a, v);
    assert OpsStep(s, [p, q]).OpsDone? && OpsStep(s, [p, q]).store == WithNewKey(WithNewKey(s, a, v), b, v);
    assert Succeeds(s.kv, TwoPutTxn(a, b, v));
  }

  lemma LoneLeader(kv: map<Bytes, KeyValue>, name: Bytes, r: KeyValue)
    requires WellKeyed(kv) && Rangeable(name) && name <= r.key && r.key in kv && kv[r.key] == r
    requires forall k :: k in kv && name <= k ==> k == r.key || Before(r, kv[k])
    ensures Leader(kv, name) == Some(r)
  {
    LeaderUnique(kv, name, r);
  }

  /** What the guard buys: a transaction that creates two keys lets the very next put displace a
      leader whose key survives, because the revision was set back. */
  lemma TwoPutTxnLosesLeader(s: Store, name: Bytes, a: Bytes, b: Bytes, c: Bytes, v: Bytes)
    requires WellKeyed(s.kv) && Rangeable(name)
    requires forall k :: k in s.kv ==> !(name <= k)
    requires a !in s.kv && !(name <= a) && name <= b && name <= c && ByteStrings.Less(c, b)
    ensures TxnStep(s, TwoPutTxn(a, b, v)).Done?
    ensures PutStep(TxnStep(s, TwoPutTxn(a, b, v)).store, c, v, 0, false).Done?
    ensures var t := TxnStep(s, TwoPutTxn(a, b, v)).store; var u := PutStep(t, c, v, 0, false).store;
      Survives(t, u, b) && c in u.kv && Leader(t.kv, name) == Some(t.kv[b]) && Leader(u.kv, name) == Some(u.kv[c])
  {
    TwoPuts(s, a, b, v);
    var t := WithTwoKeys(s, a, b, v);
    LessTrichotomy(b, c);
    assert c !in t.kv;
    assert PutStep(t, c, v, 0, false).Done? && PutStep(t, c, v, 0, false).store == WithNewKey(t, c, v);
    LeadersAround(s, name, a, b, c, v);
  }

  lemma LeadersAround(s: Store, name: Bytes, a: Bytes, b: Bytes, c: Bytes, v: Bytes)
    requires WellKeyed(s.kv) && Rangeable(name)
    requires forall k :: k in s.kv ==> !(name <= k)
    requires a !in s.kv && !(name <= a) && name <= b && name <= c && ByteStrings.Less(c, b)
    ensures var t := WithTwoKeys(s, a, b, v); var u := WithNewKey(t, c, v);
      Survives(t, u, b) && Leader(t.kv, name) == Some(t.kv[b]) && Leader(u.kv, name) == Some(u.kv[c])
  {
    var t := WithTwoKeys(s, a, b, v);
    LessTrichotomy(b, c);
    assert forall k :: k in t.kv && name <= k ==> k == b;
    LoneLeader(t.kv, name, t.kv[b]);
    NewLeader(t, name, b, c, v);
  }

  /** A new key beats a lone leader of the same create revision if it comes first in key order. */
  lemma NewLeader(t: Store, name: Bytes, b: Bytes, c: Bytes, v: Bytes)
    requires WellKeyed(t.kv) && Rangeable(name) && name <= c && b in t.kv && ByteStrings.Less(c, b)
    requires forall k :: k in t.kv && name <= k ==> k == b
    requires t.kv[b].created == t.revision + 1
    ensures Leader(WithNewKey(t, c, v).kv, name) == Some(WithNewKey(t, c, v).kv[c])
  {
    LessTrichotomy(b, c);
    LoneLeader(WithNewKey(t, c, v).kv, name, WithNewKey(t, c, v).kv[c]);
  }
}
