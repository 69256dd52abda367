/** Broker, consumer and producer in their own form: objects that update their fields in place,
    proved against the functions of the other Kafka modules. */
module KafkaService {
  import opened ByteStrings
  import opened KafkaBroker
  import opened KafkaFetch
  import opened KafkaConsumer
  import opened KafkaProducer

  /** A batch that has stopped or panicked stays so, whatever follows in it. */
  lemma {:induction false} ProduceSettled(b: Logs, batch: seq<Message>, i: nat)
    requires i <= |batch|
    ensures !Produce(b, batch[..i]).Appended? ==> Produce(b, batch) == Produce(b, batch[..i])
    decreases |batch|
  {
    if i < |batch| {
      ProduceSettled(b, batch[..|batch| - 1], i);
      assert batch[..|batch| - 1][..i] == batch[..i];
    } else {
      assert batch[..i] == batch;
    }
  }

  class Broker {
    var topics: Logs

    constructor ()
      ensures topics == map[]
    {
      topics := map[];
    }

    /** Creating a topic that exists replaces it, logs included. */
    method CreateTopic(name: string, partitions: nat)
      modifies this
      ensures topics == old(topics)[name := NewTopic(partitions)]
    {
      topics := topics[name := NewTopic(partitions)];
    }

    method AppendOne(msg: Message) returns (known: bool)
      requires !KafkaBroker.ProduceOne(topics, msg).ProducePanic?
      modifies this
      ensures topics == KafkaBroker.ProduceOne(old(topics), msg).logs
      ensures known == KafkaBroker.ProduceOne(old(topics), msg).Appended?
    {
      if msg.topic !in topics { return false; }
      var topic := topics[msg.topic];
      var index := topic.last;
      topic := topic.(last := topic.last + 1);
      if topic.last >= |topic.partitions| {
        topic := topic.(last := 0);
      }
      var partition := topic.partitions[index];
      var stamped := msg.(partition := index, offset := partition.logEnd);
      partition := partition.(msgs := partition.msgs + [stamped]);
      partition := partition.(logEnd := partition.logEnd + 1);
      partition := partition.(high := partition.logEnd);
      topic := topic.(partitions := topic.partitions[index := partition]);
      topics := topics[msg.topic := topic];
      known := true;
    }

    method Produce(batch: seq<Message>) returns (known: bool)
      requires !KafkaBroker.Produce(topics, batch).ProducePanic?
      modifies this
      ensures topics == KafkaBroker.Produce(old(topics), batch).logs
      ensures known == KafkaBroker.Produce(old(topics), batch).Appended?
    {
      var i := 0;
      while i < |batch|
        invariant 0 <= i <= |batch|
        invariant KafkaBroker.Produce(old(topics), batch[..i]) == Appended(topics)
      {
        assert batch[..i + 1][..i] == batch[..i];
        ProduceSettled(old(topics), batch, i + 1);
        var ok := AppendOne(batch[i]);
        if !ok { return false; }
        i := i + 1;
      }
      assert batch[..i] == batch;
      known := true;
    }

    /** The inner loop of a fetch, from a start index on. */
    method ScanPartition(p: Partition, start: nat, elem: Elem, taken: seq<Message>, bytes: nat, lim: Limits)
      returns (s: Scan)
      ensures s == ScanFrom(p, start, elem, taken, bytes, 0, lim)
    {
      var e, rets := elem, taken;
      var total: nat, inPartition: nat := bytes, 0;
      var i := start;
      while i < |p.msgs|
        invariant ScanFrom(p, start, elem, taken, bytes, 0, lim) == ScanFrom(p, i, e, rets, total, inPartition, lim)
      {
        var m := p.msgs[i];
        if m.offset < p.high {
          if total + Size(m) > lim.total || inPartition + Size(m) > lim.perPartition {
            return Scan(e, rets, total, true);
          }
          e := e.(offset := At(m.offset + 1));
          rets := rets + [m];
          total := total + Size(m);
          inPartition := inPartition + Size(m);
        }
        i := i + 1;
      }
      s := Scan(e, rets, total, false);
    }

    /** Fetches into a copy of the assignment, which is handed back with the messages. */
    method Fetch(assignment: seq<Elem>, lim: Limits) returns (r: FetchResult)
      requires !KafkaFetch.Fetch(topics, assignment, lim).FetchPanic?
      ensures r == KafkaFetch.Fetch(topics, assignment, lim)
    {
      var tpl := assignment;
      var rets: seq<Message>, total: nat := [], 0;
      var i := 0;
      while i < |tpl|
        invariant 0 <= i <= |tpl|
        invariant KafkaFetch.Fetch(topics, assignment, lim) == FetchFrom(topics, tpl, i, rets, total, lim)
        decreases |tpl| - i
      {
        var found := GetPartition(topics, tpl[i].topic, tpl[i].partition);
        if found.NotFound? { return FetchFailed(found.error); }
        if found.partition.msgs != [] {
          var start := StartIndex(found.partition.msgs, tpl[i].offset);
          if start.StartInvalid? { return FetchFailed(NoOffset); }
          var s := ScanPartition(found.partition, start.index, tpl[i], rets, total, lim);
          tpl := tpl[i := s.elem];
          if s.stopped { return Fetched(s.rets, tpl); }
          rets, total := s.rets, s.total;
        }
        i := i + 1;
      }
      r := Fetched(rets, tpl);
    }
  }

  class BaseConsumer {
    const cfg: Config
    var tpl: seq<Elem>
    var msgs: seq<Message>

    ghost function View(): Consumer
      reads this
    {
      Consumer(tpl, msgs)
    }

    constructor (cfg: Config)
      ensures this.cfg == cfg && View() == Consumer([], [])
    {
      this.cfg, tpl, msgs := cfg, [], [];
    }

    /** Applies the reset policy to every element. */
    method Reset(list: seq<Elem>) returns (r: seq<Elem>)
      ensures r == ResetAll(list, cfg.reset)
    {
      r := list;
      var i := 0;
      while i < |r|
        invariant 0 <= i <= |r| == |list|
        invariant forall j :: 0 <= j < i ==> r[j] == ResetOffset(list[j], cfg.reset)
        invariant forall j :: i <= j < |r| ==> r[j] == list[j]
      {
        r := r[i := ResetOffset(r[i], cfg.reset)];
        i := i + 1;
      }
    }

    method Assign(list: seq<Elem>)
      modifies this`tpl
      ensures View() == KafkaConsumer.Assign(old(View()), list, cfg)
    {
      tpl := Reset(list);
    }

    method IncrementalAssign(list: seq<Elem>)
      modifies this`tpl
      ensures View() == KafkaConsumer.IncrementalAssign(old(View()), list, cfg)
    {
      var added := Reset(list);
      var places := set e | e in tpl :: PlaceOf(e);
      var i := 0;
      while i < |added|
        invariant 0 <= i <= |added|
        invariant tpl == AddNew(old(tpl), added[..i])
        invariant forall place :: place in places <==> Assigned(tpl, place)
      {
        assert added[..i + 1][..i] == added[..i];
        var e := added[i];
        if PlaceOf(e) !in places {
          places := places + {PlaceOf(e)};
          tpl := tpl + [e];
        }
        i := i + 1;
      }
      assert added[..i] == added;
    }

    method IncrementalUnassign(list: seq<Elem>)
      modifies this`tpl
      ensures View() == KafkaConsumer.IncrementalUnassign(old(View()), list)
    {
      if tpl == [] { return; }
      var kept: seq<Elem> := [];
      var i := 0;
      while i < |tpl|
        invariant 0 <= i <= |tpl| && tpl == old(tpl)
        invariant kept == Without(tpl[..i], list)
      {
        assert tpl[..i + 1][..i] == tpl[..i];
        if !Assigned(list, PlaceOf(tpl[i])) {
          kept := kept + [tpl[i]];
        }
        i := i + 1;
      }
      assert tpl[..i] == tpl;
      tpl := kept;
    }

    /** Checks everything first; only then clears the buffer and moves the cursors. */
    method SeekPartitions(list: seq<Elem>) returns (ok: bool)
      modifies this
      ensures ok == Seek(old(View()), list).Some?
      ensures View() == if ok then Seek(old(View()), list).value else old(View())
    {
      var i := 0;
      while i < |list|
        invariant 0 <= i <= |list|
        invariant forall j :: 0 <= j < i ==> Seekable(tpl, list[j])
      {
        if !Seekable(tpl, list[i]) {
          assert list[i] in list;
          return false;
        }
        i := i + 1;
      }
      msgs := [];
      i := 0;
      while i < |list|
        invariant 0 <= i <= |list| && |tpl| == |old(tpl)| && msgs == []
        invariant tpl == SeekTo(old(tpl), list[..i])
      {
        assert list[..i + 1][..i] == list[..i];
        var index := IndexOf(tpl, PlaceOf(list[i]));
        SamePlacesSameIndex(old(tpl), tpl, PlaceOf(list[i]));
        tpl := tpl[index := tpl[index].(offset := list[i].offset)];
        i := i + 1;
      }
      assert list[..i] == list;
      ok := true;
    }

    /** Fetches when the buffer is empty, then pops the front; a failed fetch changes nothing. */
    method Poll(broker: Broker) returns (r: PollOutcome)
      requires !KafkaConsumer.Poll(broker.topics, View(), cfg).PollPanic?
      modifies this
      ensures r == KafkaConsumer.Poll(broker.topics, old(View()), cfg)
      ensures View() == if r.Polled? then r.consumer else old(View())
    {
      if msgs == [] && tpl != [] {
        var fetched := broker.Fetch(tpl, cfg.limits);
        if fetched.FetchFailed? { return PollFailed(fetched.error); }
        msgs, tpl := fetched.msgs, fetched.tpl;
      }
      if msgs == [] {
        r := Polled(Consumer(tpl, msgs), None);
      } else {
        var head := msgs[0];
        msgs := msgs[1..];
        r := Polled(Consumer(tpl, msgs), Some(head));
      }
    }
  }

  lemma {:induction false} SamePlacesSameIndex(a: seq<Elem>, b: seq<Elem>, place: Place)
    requires |a| == |b| && (forall i :: 0 <= i < |a| ==> PlaceOf(a[i]) == PlaceOf(b[i]))
    requires Assigned(a, place)
    ensures Assigned(b, place) && IndexOf(a, place) == IndexOf(b, place)
  {
    var e :| e in a && PlaceOf(e) == place;
    var i :| 0 <= i < |a| && a[i] == e;
    assert b[i] in b;
    var n := |a| - 1;
    if PlaceOf(a[n]) != place {
      assert a[..n][i] in a[..n];
      SamePlacesSameIndex(a[..n], b[..n], place);
    }
  }

  class BaseProducer {
    const cfg: ProducerConfig
    var inner: Inner

    constructor (cfg: ProducerConfig)
      ensures this.cfg == cfg && inner == Init
    {
      this.cfg, inner := cfg, Init;
    }

    method Send(msg: Message) returns (effect: Effect)
      requires !SendStep(inner, msg, cfg).SendPanic?
      modifies this
      ensures Next(inner, effect) == ProducerStep(old(inner), ProducerOp.Send(msg), cfg)
    {
      if inner.Init? {
        inner := NonTxn([]);
      }
      if inner.NonTxn? {
        if |inner.plain| >= cfg.maxMessages { return Refused(QueueFull); }
        assert [] + [msg] == [msg];
        inner := NonTxn(inner.plain + [msg]);
      } else {
        inner := InTxn(Some(inner.open.value + [msg]));
      }
      effect := Effect.Accepted;
    }

    /** `Took` names the batch that is then sent to the broker. */
    method Flush() returns (effect: Effect)
      modifies this
      ensures Next(inner, effect) == ProducerStep(old(inner), ProducerOp.Flush, cfg)
    {
      if inner.NonTxn? && inner.plain != [] {
        effect := Took(inner.plain);
        inner := NonTxn([]);
      } else {
        effect := Fine;
      }
    }

    method InitTransactions() returns (effect: Effect)
      modifies this
      ensures Next(inner, effect) == ProducerStep(old(inner), ProducerOp.InitTransactions, cfg)
    {
      if !cfg.hasTransactionalId { return Refused(NoTransactionalId); }
      if !inner.Init? { return Refused(NotFirst); }
      inner := InTxn(None);
      effect := Fine;
    }

    method BeginTransaction() returns (effect: Effect)
      modifies this
      ensures Next(inner, effect) == ProducerStep(old(inner), Begin, cfg)
    {
      if !inner.InTxn? { return Refused(NotInitialized); }
      if inner.open.Some? { return Refused(InProgress); }
      inner := InTxn(Some([]));
      effect := Fine;
    }

    method CommitTransaction() returns (effect: Effect)
      modifies this
      ensures Next(inner, effect) == ProducerStep(old(inner), Commit, cfg)
    {
      if !inner.InTxn? || inner.open.None? { return Refused(NoTransaction); }
      effect := Took(inner.open.value);
      inner := InTxn(Some([]));
    }

    method AbortTransaction() returns (effect: Effect)
      modifies this
      ensures Next(inner, effect) == ProducerStep(old(inner), Abort, cfg)
    {
      if !inner.InTxn? || inner.open.None? { return Refused(NoTransaction); }
      inner := InTxn(None);
      effect := Effect.Aborted;
    }
  }
}
