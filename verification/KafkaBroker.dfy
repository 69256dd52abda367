/** The simulated Kafka broker: partitioned logs filled round robin. */
module KafkaBroker {
  import opened ByteStrings

  datatype Timestamp = NotAvailable | CreateTime(millis: int) | LogAppendTime(millis: int)

  datatype Message = Message(
    topic: string, partition: int, offset: int,
    payload: Option<Bytes>, key: Option<Bytes>, timestamp: Timestamp)

  function Size(m: Message): nat {
    10 + (if m.payload.Some? then |m.payload.value| else 0) + (if m.key.Some? then |m.key.value| else 0)
  }

  datatype Partition = Partition(msgs: seq<Message>, logEnd: int, low: int, high: int)

  datatype Topic = Topic(partitions: seq<Partition>, last: nat)

  type Logs = map<string, Topic>

  const EmptyPartition := Partition([], 0, 0, 0)

  function NewTopic(partitions: nat): Topic {
    Topic(seq(partitions, i requires 0 <= i < partitions => EmptyPartition), 0)
  }

  datatype ProduceOutcome = Appended(logs: Logs) | UnknownTopic(logs: Logs) | ProducePanic

  function Append(p: Partition, index: nat, m: Message): Partition {
    Partition(p.msgs + [m.(partition := index, offset := p.logEnd)], p.logEnd + 1, p.low, p.logEnd + 1)
  }

  /** One message goes to the partition whose turn it is. */
  function ProduceOne(b: Logs, m: Message): ProduceOutcome {
    if m.topic !in b then UnknownTopic(b)
    else
      var t := b[m.topic];
      var i := t.last;
      if i >= |t.partitions| then ProducePanic
      else
        var last := if i + 1 >= |t.partitions| then 0 else i + 1;
        Appended(b[m.topic := Topic(t.partitions[i := Append(t.partitions[i], i, m)], last)])
  }

  /** A batch stops at the first unknown topic and keeps what it appended before. */
  function Produce(b: Logs, batch: seq<Message>): ProduceOutcome {
    if batch == [] then Appended(b)
    else
      match Produce(b, batch[..|batch| - 1])
      case Appended(logs) => ProduceOne(logs, batch[|batch| - 1])
      case other => other
  }

  // ---- round-robin placement -------------------------------------------------------------

  /** The log of partition p after the messages h were dealt out to n partitions. */
  function Share(h: seq<Message>, n: nat, p: nat): seq<Message>
    requires n > 0
  {
    if h == [] then []
    else
      var init := Share(h[..|h| - 1], n, p);
      if (|h| - 1) % n == p then init + [h[|h| - 1].(partition := p, offset := |init|)] else init
  }

  ghost predicate Dealt(t: Topic, h: seq<Message>) {
    var n := |t.partitions|;
    && n > 0 && t.last == |h| % n
    && forall p :: 0 <= p < n ==>
         var log := t.partitions[p];
         log.msgs == Share(h, n, p) && log.logEnd == log.high == |log.msgs| && log.low == 0
  }

  lemma NextTurn(k: nat, n: nat)
    requires n > 0
    ensures (k + 1) % n == (if k % n + 1 == n then 0 else k % n + 1)
    ensures (k + 1) / n == (if k % n + 1 == n then k / n + 1 else k / n)
  {
    var q, r := k / n, k % n;
    assert k == q * n + r;
    if r + 1 == n {
      assert k + 1 == (q + 1) * n + 0;
      DivModUnique(k + 1, n, q + 1, 0);
    } else {
      assert k + 1 == q * n + (r + 1);
      DivModUnique(k + 1, n, q, r + 1);
    }
  }

  lemma DivModUnique(k: nat, n: nat, q: nat, r: nat)
    requires 0 <= r < n && k == q * n + r
    ensures k / n == q && k % n == r
  {
    if q < k / n {
      MulStep(q, k / n, n);
    } else if k / n < q {
      MulStep(k / n, q, n);
    }
  }

  lemma MulStep(a: nat, b: nat, n: nat)
    requires a < b
    ensures a * n + n <= b * n
  {
    assert b * n == a * n + (b - a) * n;
    assert (b - a) * n == n + (b - a - 1) * n;
  }

  /** How many messages partition p holds: lengths differ by at most one. */
  lemma {:induction false} ShareLength(h: seq<Message>, n: nat, p: nat)
    requires p < n
    ensures |Share(h, n, p)| == |h| / n + (if p < |h| % n then 1 else 0)
  {
    if h == [] {
      DivModUnique(0, n, 0, 0);
    } else {
      ShareLength(h[..|h| - 1], n, p);
      NextTurn(|h| - 1, n);
    }
  }

  /** The k-th message lies at partition k mod n, offset k div n. */
  lemma {:induction false} PlacedAt(h: seq<Message>, n: nat, k: nat)
    requires n > 0 && k < |h|
    ensures k / n < |Share(h, n, k % n)|
    ensures Share(h, n, k % n)[k / n] == h[k].(partition := k % n, offset := k / n)
  {
    var init := h[..|h| - 1];
    ShareLength(init, n, k % n);
    if k < |init| {
      PlacedAt(init, n, k);
    }
  }

  lemma ProduceOneDealt(b: Logs, m: Message, name: string, h: seq<Message>)
    requires name in b && Dealt(b[name], h) && ProduceOne(b, m).Appended?
    ensures var b' := ProduceOne(b, m).logs;
      b'.Keys == b.Keys && Dealt(b'[name], if m.topic == name then h + [m] else h)
  {
    if m.topic == name {
      var n := |b[name].partitions|;
      NextTurn(|h|, n);
      assert (h + [m])[..|h|] == h;
      forall p | 0 <= p < n ensures Share(h + [m], n, p) ==
        (if |h| % n == p then Share(h, n, p) + [m.(partition := p, offset := |Share(h, n, p)|)] else Share(h, n, p)) {}
    }
  }

  /** The longest prefix of a batch whose topics all exist. */
  function Accepted(b: Logs, batch: seq<Message>): (r: seq<Message>)
    ensures r <= batch
  {
    if batch == [] then []
    else
      var init := batch[..|batch| - 1];
      var a := Accepted(b, init);
      if |a| == |init| && batch[|batch| - 1].topic in b then batch else a
  }

  function OnTopic(msgs: seq<Message>, name: string): seq<Message> {
    if msgs == [] then []
    else OnTopic(msgs[..|msgs| - 1], name) + if msgs[|msgs| - 1].topic == name then [msgs[|msgs| - 1]] else []
  }

  /** Every topic has a partition whose turn it is. */
  predicate Ready(b: Logs) {
    forall name :: name in b ==> b[name].last < |b[name].partitions|
  }

  lemma ProduceOneReady(b: Logs, m: Message)
    requires Ready(b)
    ensures var o := ProduceOne(b, m);
      !o.ProducePanic? && o.logs.Keys == b.Keys && Ready(o.logs) && (o.Appended? <==> m.topic in b)
  {
    if m.topic in b { assert b[m.topic].last < |b[m.topic].partitions|; }
  }

  /** A batch never panics, and reports an unknown topic exactly when it stopped early. */
  lemma {:induction false} ProduceReady(b: Logs, batch: seq<Message>)
    requires Ready(b)
    ensures var o := Produce(b, batch);
      !o.ProducePanic? && o.logs.Keys == b.Keys && Ready(o.logs) && (o.Appended? <==> Accepted(b, batch) == batch)
  {
    if batch != [] {
      var n := |batch| - 1;
      ProduceReady(b, batch[..n]);
      var o := Produce(b, batch[..n]);
      if o.Appended? { ProduceOneReady(o.logs, batch[n]); }
    }
  }

  /** What a batch adds to the history of a topic, one message more. */
  lemma AcceptedMore(b: Logs, batch: seq<Message>, name: string)
    requires batch != []
    ensures var n := |batch| - 1; var m := batch[n];
      OnTopic(Accepted(b, batch), name) ==
        OnTopic(Accepted(b, batch[..n]), name) +
        (if Accepted(b, batch[..n]) == batch[..n] && m.topic in b && m.topic == name then [m] else [])
  {
    var n := |batch| - 1;
    var a := OnTopic(Accepted(b, batch[..n]), name);
    assert a + [] == a;
  }

  /** A batch deals its accepted prefix, topic by topic, on top of what the topics held before. */
  lemma {:induction false} ProduceDealt(b: Logs, batch: seq<Message>, name: string, h: seq<Message>)
    requires Ready(b) && name in b && Dealt(b[name], h)
    ensures !Produce(b, batch).ProducePanic? && name in Produce(b, batch).logs
    ensures Dealt(Produce(b, batch).logs[name], h + OnTopic(Accepted(b, batch), name))
  {
    ProduceReady(b, batch);
    if batch == [] {
      assert h + [] == h;
    } else {
      var n := |batch| - 1;
      var m := batch[n];
      ProduceReady(b, batch[..n]);
      ProduceDealt(b, batch[..n], name, h);
      AcceptedMore(b, batch, name);
      var g := OnTopic(Accepted(b, batch[..n]), name);
      var o := Produce(b, batch[..n]);
      if o.Appended? && m.topic in b {
        ProduceOneReady(o.logs, m);
        ProduceOneDealt(o.logs, m, name, h + g);
        assert (h + g) + [m] == h + (g + [m]);
      } else {
        assert h + (g + []) == h + g;
        assert Produce(b, batch).logs == o.logs;
      }
      assert h + (g + []) == h + g;
    }
  }

  /** The production order is recoverable from the partitions alone. */
  lemma ProductionOrder(t: Topic, h: seq<Message>, k: nat)
    requires Dealt(t, h) && k < |h|
    ensures var n := |t.partitions|;
      && k / n < |t.partitions[k % n].msgs|
      && t.partitions[k % n].msgs[k / n] == h[k].(partition := k % n, offset := k / n)
  {
    PlacedAt(h, |t.partitions|, k);
  }

  lemma Balanced(t: Topic, h: seq<Message>, p: nat, q: nat)
    requires Dealt(t, h) && p < |t.partitions| && q < |t.partitions|
    ensures |t.partitions[p].msgs| <= |t.partitions[q].msgs| + 1
  {
    ShareLength(h, |t.partitions|, p);
    ShareLength(h, |t.partitions|, q);
  }

  // ---- dense logs ------------------------------------------------------------------------

  /** Offsets are positions, every message names its own place, and the watermark is the end. */
  predicate DenseLog(p: Partition, name: string, index: nat) {
    && p.logEnd == p.high == |p.msgs|
    && forall i :: 0 <= i < |p.msgs| ==>
         p.msgs[i].topic == name && p.msgs[i].partition == index && p.msgs[i].offset == i
  }

  predicate Dense(b: Logs) {
    forall name, i :: name in b && 0 <= i < |b[name].partitions| ==> DenseLog(b[name].partitions[i], name, i)
  }

  /** Logs only grow at the end. */
  ghost predicate Grows(b: Logs, b': Logs) {
    && b.Keys == b'.Keys
    && forall name :: name in b ==>
         && |b[name].partitions| == |b'[name].partitions|
         && forall i :: 0 <= i < |b[name].partitions| ==> b[name].partitions[i].msgs <= b'[name].partitions[i].msgs
  }

  lemma ProduceOneGrows(b: Logs, m: Message)
    requires Dense(b) && !ProduceOne(b, m).ProducePanic?
    ensures Dense(ProduceOne(b, m).logs) && Grows(b, ProduceOne(b, m).logs)
  {
    if m.topic in b {
      var i := b[m.topic].last;
      assert DenseLog(b[m.topic].partitions[i], m.topic, i);
      assert DenseLog(Append(b[m.topic].partitions[i], i, m), m.topic, i);
    }
  }

  lemma GrowsTransitive(a: Logs, b: Logs, c: Logs)
    requires Grows(a, b) && Grows(b, c)
    ensures Grows(a, c)
  {
  }

  lemma {:induction false} ProduceGrows(b: Logs, batch: seq<Message>)
    requires Dense(b) && !Produce(b, batch).ProducePanic?
    ensures Dense(Produce(b, batch).logs) && Grows(b, Produce(b, batch).logs)
  {
    if batch != [] {
      var n := |batch| - 1;
      ProduceGrows(b, batch[..n]);
      var mid := Produce(b, batch[..n]);
      if mid.Appended? {
        ProduceOneGrows(mid.logs, batch[n]);
        GrowsTransitive(b, mid.logs, ProduceOne(mid.logs, batch[n]).logs);
      }
    }
  }

  /** A topic that was just created has the partitions asked for, all empty, and is dealt to from the first
      on; it fits in among dense logs. */
  lemma CreatedTopic(b: Logs, name: string, partitions: nat)
    ensures var t := NewTopic(partitions);
      && |t.partitions| == partitions && (partitions > 0 ==> Dealt(t, []))
      && (Dense(b) ==> Dense(b[name := t])) && (Ready(b) ==> (Ready(b[name := t]) <==> partitions > 0))
  {
    var t, after := NewTopic(partitions), b[name := NewTopic(partitions)];
    if Dense(b) {
      forall n, i | n in after && 0 <= i < |after[n].partitions| ensures DenseLog(after[n].partitions[i], n, i) {
        if n != name { assert after[n] == b[n]; }
      }
    }
    assert after[name] == t;
  }
}
