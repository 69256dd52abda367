/** Producer, broker and consumer together: what a consumer is handed, traced back to the records
    the producer accepted. */
module KafkaPipeline {
  import opened ByteStrings
  import opened KafkaBroker
  import opened KafkaFetch
  import opened KafkaConsumer
  import opened KafkaDelivery
  import opened KafkaAssignment
  import opened KafkaProducer

  /** `arrived` are the records the broker accepted, in order; `lossless` says that every batch
      reached it and was accepted in full. */
  datatype Pipe = Pipe(producer: ProducerRun, arrived: seq<Message>, lossless: bool, flow: Flow)

  datatype PipeStep =
    | Client(op: ProducerOp, reached: bool)  // a batch may be lost on its way to the broker
    | Consume(step: FlowStep)

  datatype Configs = Configs(producer: ProducerConfig, consumer: Config)

  function PipeNext(p: Pipe, step: PipeStep, cfg: Configs): Option<Pipe> {
    match step
    case Consume(s) =>
      if s.Produced? || !FlowGuard(p.flow, s, cfg.consumer) then None
      else Some(p.(flow := FlowNext(p.flow, s, cfg.consumer)))
    case Client(op, reached) =>
      match ProducerStep(p.producer.inner, op, cfg.producer)
      case SendPanic => None
      case Next(inner, effect) =>
        var batch := if effect.Took? then effect.batch else [];
        var run := ProducerRun(inner, p.producer.out + batch, p.producer.trace + EntriesOf(op, effect));
        if !effect.Took? then Some(p.(producer := run))
        else if !reached then Some(p.(producer := run, lossless := p.lossless && batch == []))
        else if Produce(p.flow.logs, batch).ProducePanic? then None
        else
          var got := KafkaBroker.Accepted(p.flow.logs, batch);
          Some(Pipe(run, p.arrived + got, p.lossless && got == batch, FlowNext(p.flow, Produced(batch), cfg.consumer)))
  }

  function PipeRun(p: Pipe, steps: seq<PipeStep>, cfg: Configs): Option<Pipe> {
    if steps == [] then Some(p)
    else
      match PipeRun(p, steps[..|steps| - 1], cfg)
      case None => None
      case Some(q) => PipeNext(q, steps[|steps| - 1], cfg)
  }

  ghost predicate PipeOk(p: Pipe, name: string) {
    && Flowing(p.flow) && Ready(p.flow.logs)
    && name in p.flow.logs && Dealt(p.flow.logs[name], OnTopic(p.arrived, name))
    && (exists t :: Accounted(p.producer, t))
    && (p.lossless ==> p.arrived == p.producer.out)
  }

  lemma {:induction false} OnTopicConcat(a: seq<Message>, b: seq<Message>, name: string)
    ensures OnTopic(a + b, name) == OnTopic(a, name) + OnTopic(b, name)
  {
    if b == [] {
      assert a + b == a;
    } else {
      assert (a + b)[..|a + b| - 1] == a + b[..|b| - 1];
      OnTopicConcat(a, b[..|b| - 1], name);
    }
  }

  lemma ConsumeKeepsLogs(f: Flow, s: FlowStep, cfg: Config)
    requires !s.Produced? && FlowGuard(f, s, cfg)
    ensures FlowNext(f, s, cfg).logs == f.logs
  {
  }

  lemma {:induction false} BatchArrives(p: Pipe, name: string, batch: seq<Message>, cfg: Configs)
    requires Flowing(p.flow) && Ready(p.flow.logs) && name in p.flow.logs
      && Dealt(p.flow.logs[name], OnTopic(p.arrived, name))
    ensures !Produce(p.flow.logs, batch).ProducePanic?
    ensures var f := FlowNext(p.flow, Produced(batch), cfg.consumer);
      && Flowing(f) && Ready(f.logs) && name in f.logs
      && Dealt(f.logs[name], OnTopic(p.arrived + KafkaBroker.Accepted(p.flow.logs, batch), name))
  {
    ProduceReady(p.flow.logs, batch);
    ProduceDealt(p.flow.logs, batch, name, OnTopic(p.arrived, name));
    OnTopicConcat(p.arrived, KafkaBroker.Accepted(p.flow.logs, batch), name);
    ProducedFlows(p.flow, batch);
  }

  lemma {:induction false} PipeNextOk(p: Pipe, step: PipeStep, cfg: Configs, name: string)
    requires PipeOk(p, name) && PipeNext(p, step, cfg).Some?
    ensures PipeOk(PipeNext(p, step, cfg).value, name)
  {
    match step
    case Consume(s) =>
      FlowNextFlows(p.flow, s, cfg.consumer);
      ConsumeKeepsLogs(p.flow, s, cfg.consumer);
    case Client(op, reached) =>
      var t :| Accounted(p.producer, t);
      var t' := AccountedNext(p.producer, t, op, cfg.producer);
      var o := ProducerStep(p.producer.inner, op, cfg.producer);
      assert p.producer.out + [] == p.producer.out;
      if o.effect.Took? && reached { BatchArrives(p, name, o.effect.batch, cfg); }
  }

  lemma {:induction false} PipeRunOk(p: Pipe, steps: seq<PipeStep>, cfg: Configs, name: string)
    requires PipeOk(p, name) && PipeRun(p, steps, cfg).Some?
    ensures PipeOk(PipeRun(p, steps, cfg).value, name)
  {
    if steps != [] {
      PipeRunOk(p, steps[..|steps| - 1], cfg, name);
      PipeNextOk(PipeRun(p, steps[..|steps| - 1], cfg).value, steps[|steps| - 1], cfg, name);
    }
  }

  /** A fresh producer and a consumer with an empty buffer. */
  function StartPipe(b: Logs, c: Consumer): Pipe {
    Pipe(ProducerRun(Init, [], []), [], true, FreshFlow(b, c))
  }

  lemma StartOk(b: Logs, c: Consumer, name: string)
    requires Dense(b) && Ready(b) && name in b && Dealt(b[name], [])
    requires c.buffer == [] && Distinct(c.tpl) && Fetchable(b, c.tpl)
    ensures PipeOk(StartPipe(b, c), name)
  {
    FreshFlows(b, c);
    assert Accounted(ProducerRun(Init, [], []), 0);
  }

  lemma {:induction false} PipeNextKeepsStart(p: Pipe, step: PipeStep, cfg: Configs, place: Place)
    requires Flowing(p.flow) && place in p.flow.starts && PipeNext(p, step, cfg).Some?
    ensures var f := PipeNext(p, step, cfg).value.flow; place in f.starts && f.starts[place] == p.flow.starts[place]
  {
    match step
    case Consume(s) => StartKept(p.flow, s, cfg.consumer, place);
    case Client(op, reached) =>
  }

  lemma {:induction false} PipeKeepsStart(p: Pipe, steps: seq<PipeStep>, cfg: Configs, name: string, place: Place)
    requires PipeOk(p, name) && place in p.flow.starts && PipeRun(p, steps, cfg).Some?
    ensures var f := PipeRun(p, steps, cfg).value.flow; place in f.starts && f.starts[place] == p.flow.starts[place]
  {
    if steps != [] {
      var n := |steps| - 1;
      PipeKeepsStart(p, steps[..n], cfg, name, place);
      PipeRunOk(p, steps[..n], cfg, name);
      PipeNextKeepsStart(PipeRun(p, steps[..n], cfg).value, steps[n], cfg, place);
    }
  }

  /** End to end, over any interleaving of producer operations, lost batches, polls, lost polls and
      changes of assignment: a partition of the topic assigned at an offset (e0) and still assigned (e)
      has been handed its round-robin share of the records that arrived, from that offset up to its
      cursor, in order and each once; and if no batch was lost, arrived plus still pending is all the
      producer accepted and did not abort. */
  lemma {:induction false} EndToEnd(b: Logs, c: Consumer, steps: seq<PipeStep>, cfg: Configs, name: string,
                                    e0: Elem, e: Elem)
    requires Dense(b) && Ready(b) && name in b && Dealt(b[name], [])
    requires c.buffer == [] && Distinct(c.tpl) && Fetchable(b, c.tpl)
    requires e0 in c.tpl && e0.topic == name && Settled(e0)
    requires PipeRun(StartPipe(b, c), steps, cfg).Some?
    requires e in PipeRun(StartPipe(b, c), steps, cfg).value.flow.consumer.tpl && PlaceOf(e) == PlaceOf(e0)
    ensures var p := PipeRun(StartPipe(b, c), steps, cfg).value;
      && name in p.flow.logs && 0 <= e.partition < |p.flow.logs[name].partitions|
      && Settled(e)
      && Between(Of(p.flow.Handed(), PlaceOf(e)),
                 Share(OnTopic(p.arrived, name), |p.flow.logs[name].partitions|, e.partition), Cursor(e0), Cursor(e))
      && (p.lossless ==> p.arrived + PendingOf(p.producer.inner) == Live(p.producer.trace, |p.producer.trace|))
  {
    StartOk(b, c, name);
    FlowingFetchable(FreshFlow(b, c));
    assert CursorOk(FreshFlow(b, c), e0);
    assert FreshFlow(b, c).Handed() == [];
    PipeRunOk(StartPipe(b, c), steps, cfg, name);
    PipeKeepsStart(StartPipe(b, c), steps, cfg, name, PlaceOf(e0));
    var f := PipeRun(StartPipe(b, c), steps, cfg).value.flow;
    assert CursorOk(f, e) && PlaceOk(f, PlaceOf(e));
    assert LogOf(f.logs, e) == f.logs[name].partitions[e.partition].msgs;
  }

  // ---- everything arrives, and everything that arrived is handed out ---------------------

  /** The producer's part of a run. */
  function ClientOps(steps: seq<PipeStep>): seq<ProducerOp> {
    if steps == [] then []
    else
      var last := steps[|steps| - 1];
      ClientOps(steps[..|steps| - 1]) + if last.Client? then [last.op] else []
  }

  lemma {:induction false} PipeProducer(b: Logs, c: Consumer, steps: seq<PipeStep>, cfg: Configs)
    requires PipeRun(StartPipe(b, c), steps, cfg).Some?
    ensures RunProducer(ClientOps(steps), cfg.producer) == Some(PipeRun(StartPipe(b, c), steps, cfg).value.producer)
  {
    if steps != [] {
      var init, last := steps[..|steps| - 1], steps[|steps| - 1];
      PipeProducer(b, c, init, cfg);
      if last.Client? {
        assert ClientOps(steps)[..|ClientOps(steps)| - 1] == ClientOps(init);
      } else {
        assert ClientOps(steps) == ClientOps(init);
      }
    }
  }

  /** No batch is lost on its way, and only records of existing topics are sent. */
  predicate Reliable(steps: seq<PipeStep>, b: Logs) {
    forall step :: step in steps && step.Client? ==> step.reached && (step.op.Send? ==> step.op.msg.topic in b)
  }

  predicate OfTopics(msgs: seq<Message>, b: Logs) {
    forall m :: m in msgs ==> m.topic in b
  }

  lemma {:induction false} AcceptedInFull(b: Logs, batch: seq<Message>)
    requires OfTopics(batch, b)
    ensures KafkaBroker.Accepted(b, batch) == batch
  {
    if batch != [] {
      assert batch == batch[..|batch| - 1] + [batch[|batch| - 1]];
      AcceptedInFull(b, batch[..|batch| - 1]);
    }
  }

  /** Nothing has been lost so far, and what is pending can arrive. */
  predicate Lossless(p: Pipe, b: Logs) {
    p.lossless && p.flow.logs.Keys == b.Keys && OfTopics(PendingOf(p.producer.inner), b)
  }

  lemma LosslessNext(p: Pipe, step: PipeStep, cfg: Configs, b: Logs)
    requires Lossless(p, b) && Ready(p.flow.logs) && PipeNext(p, step, cfg).Some? && Reliable([step], b)
    ensures Lossless(PipeNext(p, step, cfg).value, b)
  {
    assert step in [step];
    match step
    case Consume(s) => ConsumeKeepsLogs(p.flow, s, cfg.consumer);
    case Client(op, reached) =>
      var o := ProducerStep(p.producer.inner, op, cfg.producer);
      EffectOnPending(p.producer.inner, op, cfg.producer);
      if o.effect.Took? {
        AcceptedInFull(p.flow.logs, o.effect.batch);
        ProduceReady(p.flow.logs, o.effect.batch);
      }
  }

  lemma {:induction false} ReliableIsLossless(b: Logs, c: Consumer, steps: seq<PipeStep>, cfg: Configs, name: string)
    requires PipeOk(StartPipe(b, c), name) && PipeRun(StartPipe(b, c), steps, cfg).Some? && Reliable(steps, b)
    ensures Lossless(PipeRun(StartPipe(b, c), steps, cfg).value, b)
  {
    if steps != [] {
      var init, last := steps[..|steps| - 1], steps[|steps| - 1];
      assert steps == init + [last];
      ReliableIsLossless(b, c, init, cfg, name);
      PipeRunOk(StartPipe(b, c), init, cfg, name);
      LosslessNext(PipeRun(StartPipe(b, c), init, cfg).value, last, cfg, b);
    }
  }

  /** The operation sends whatever is pending. */
  ghost predicate SendsAll(ops: seq<ProducerOp>, op: ProducerOp, cfg: ProducerConfig)
    requires RunProducer(ops, cfg).Some?
  {
    || (op.Flush? && !Transactional(ops, Effects(ops, cfg)))
    || (op.Commit? && Ongoing(ops, Effects(ops, cfg)))
  }

  /** After a flush of a plain producer, or a commit, whatever happened before on reliable ways: all that was
      accepted and not aborted has arrived at the broker, in order, and nothing is pending. */
  lemma {:induction false} FlushArrives(b: Logs, c: Consumer, steps: seq<PipeStep>, op: ProducerOp, cfg: Configs,
                                        name: string)
    requires Dense(b) && Ready(b) && name in b && Dealt(b[name], [])
    requires c.buffer == [] && Distinct(c.tpl) && Fetchable(b, c.tpl)
    requires PipeRun(StartPipe(b, c), steps + [Client(op, true)], cfg).Some? && Reliable(steps, b)
    requires RunProducer(ClientOps(steps), cfg.producer).Some? ==> SendsAll(ClientOps(steps), op, cfg.producer)
    ensures var p := PipeRun(StartPipe(b, c), steps + [Client(op, true)], cfg).value;
      && PipeOk(p, name) && PendingOf(p.producer.inner) == []
      && p.arrived == Live(p.producer.trace, |p.producer.trace|)
  {
    var more := steps + [Client(op, true)];
    assert more[..|steps|] == steps;
    StartOk(b, c, name);
    PipeProducer(b, c, steps, cfg);
    PipeProducer(b, c, more, cfg);
    assert ClientOps(more) == ClientOps(steps) + [op];
    FlushTakesAll(ClientOps(steps), op, cfg.producer);
    PipeRunOk(StartPipe(b, c), more, cfg, name);
    ReliableIsLossless(b, c, more, cfg, name);
  }

  /** Nothing is left to poll, so all of the place's log from its start on was given out. */
  lemma DrainedGaveAll(f: Flow, e: Elem)
    requires Flowing(f) && e in f.consumer.tpl && f.consumer.buffer == [] && PlaceOf(e) in f.starts
    requires Readable(e) ==> StartOf(f.logs, e) >= |LogOf(f.logs, e)|
    requires f.starts[PlaceOf(e)] == 0
    ensures Of(f.delivered, PlaceOf(e)) == LogOf(f.logs, e)
  {
    assert CursorOk(f, e) && PlaceOk(f, PlaceOf(e));
    assert f.Handed() == f.delivered;
    var got, log := Of(f.delivered, PlaceOf(e)), LogOf(f.logs, e);
    assert log[0..|log|] == log;
  }

  /** From producer to consumer in full: after such a flush, polling as often as messages are pending gives
      out, for each partition assigned from its beginning, its whole round-robin share of all records of
      the topic that were accepted and not aborted. */
  lemma {:induction false} DeliveredInFull(b: Logs, c: Consumer, steps: seq<PipeStep>, op: ProducerOp, cfg: Configs,
                                           name: string, e0: Elem)
    requires Dense(b) && Ready(b) && name in b && Dealt(b[name], [])
    requires c.buffer == [] && Distinct(c.tpl) && Fetchable(b, c.tpl)
    requires PipeRun(StartPipe(b, c), steps + [Client(op, true)], cfg).Some? && Reliable(steps, b)
    requires RunProducer(ClientOps(steps), cfg.producer).Some? ==> SendsAll(ClientOps(steps), op, cfg.producer)
    requires e0 in c.tpl && e0.topic == name && Settled(e0) && Cursor(e0) == 0
    requires var f := PipeRun(StartPipe(b, c), steps + [Client(op, true)], cfg).value.flow;
      Assigned(f.consumer.tpl, PlaceOf(e0)) && AllFit(f.logs, f.consumer.tpl, cfg.consumer.limits)
    ensures var p := PipeRun(StartPipe(b, c), steps + [Client(op, true)], cfg).value;
      && (forall e :: e in p.flow.consumer.tpl ==> Readable(e))
      && var o := FlowRun(p.flow, Polls(Pending(p.flow)), cfg.consumer);
      && o.Some? && name in p.flow.logs && 0 <= e0.partition < |p.flow.logs[name].partitions|
      && Of(o.value.delivered, PlaceOf(e0)) ==
           Share(OnTopic(Live(p.producer.trace, |p.producer.trace|), name), |p.flow.logs[name].partitions|,
                 e0.partition)
  {
    var more := steps + [Client(op, true)];
    FlushArrives(b, c, steps, op, cfg, name);
    StartOk(b, c, name);
    FlowingFetchable(FreshFlow(b, c));
    assert CursorOk(FreshFlow(b, c), e0) && FreshFlow(b, c).Handed() == [];
    PipeKeepsStart(StartPipe(b, c), more, cfg, name, PlaceOf(e0));
    var p := PipeRun(StartPipe(b, c), more, cfg).value;
    PolledInFull(p.flow, cfg.consumer, PlaceOf(e0));
  }

  /** Polling as often as messages are pending gives out the whole log of a place started at zero. */
  lemma {:induction false} PolledInFull(f: Flow, cfg: Config, place: Place)
    requires Flowing(f) && Assigned(f.consumer.tpl, place) && AllFit(f.logs, f.consumer.tpl, cfg.limits)
    requires place in f.starts && f.starts[place] == 0
    ensures GetPartition(f.logs, place.0, place.1).Found?
    ensures (forall e :: e in f.consumer.tpl ==> Readable(e)) && FlowRun(f, Polls(Pending(f)), cfg).Some?
    ensures Of(FlowRun(f, Polls(Pending(f)), cfg).value.delivered, place) == Log(f.logs, place.0, place.1)
  {
    FlowingFetchable(f);
    var n := Pending(f);
    PollingDrains(f, cfg, n);
    AssignmentByHistory(f, Polls(n), cfg, place);
    PollsAssignNothing(true, n, place);
    RunKeepsStart(f, Polls(n), cfg, place);
    var g := FlowRun(f, Polls(n), cfg).value;
    var e :| e in g.consumer.tpl && PlaceOf(e) == place;
    DrainedGaveAll(g, e);
  }

  lemma {:induction false} PollsAssignNothing(before: bool, n: nat, place: Place)
    ensures AssignedAfter(before, Polls(n), place) == before
  {
    if n > 0 {
      PollsAssignNothing(before, n - 1, place);
      assert Polls(n)[..n - 1] == Polls(n - 1);
    }
  }
}
