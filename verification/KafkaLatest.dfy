/** Where delivery begins under the `latest` policy: not at the end of the log as it was at the
    assignment, but at the last message there is when a fetch first takes one. */
module KafkaLatest {
  import opened KafkaBroker
  import opened KafkaFetch
  import opened KafkaConsumer
  import opened KafkaDelivery

  lemma StepGrows(f: Flow, step: FlowStep, cfg: Config, place: Place)
    requires Flowing(f) && FlowGuard(f, step, cfg)
    ensures Log(f.logs, place.0, place.1) <= Log(FlowNext(f, step, cfg).logs, place.0, place.1)
  {
    if step.Produced? {
      ProduceGrows(f.logs, step.batch);
      GrownLog(f.logs, FlowNext(f, step, cfg).logs, place);
    }
  }

  lemma {:induction false} RunGrows(f: Flow, steps: seq<FlowStep>, cfg: Config, place: Place)
    requires Flowing(f) && FlowRun(f, steps, cfg).Some?
    ensures Log(f.logs, place.0, place.1) <= Log(FlowRun(f, steps, cfg).value.logs, place.0, place.1)
  {
    if steps != [] {
      var n := |steps| - 1;
      RunGrows(f, steps[..n], cfg, place);
      RunFlows(f, steps[..n], cfg);
      StepGrows(FlowRun(f, steps[..n], cfg).value, steps[n], cfg, place);
    }
  }

  /** What was handed out stays handed out. */
  lemma HandedGrows(f: Flow, step: FlowStep, cfg: Config)
    requires Flowing(f) && FlowGuard(f, step, cfg)
    ensures f.Handed() <= FlowNext(f, step, cfg).Handed()
  {
    if step.PolledOnce? && f.consumer.buffer == [] && f.consumer.tpl != [] {
      var takes := FetchFlows(f, cfg);
    }
  }

  lemma OfGrows(a: seq<Message>, b: seq<Message>, place: Place)
    requires a <= b
    ensures Of(a, place) <= Of(b, place)
  {
    assert b == a + b[|a|..];
    OfConcat(a, b[|a|..], place);
  }

  predicate Keeps(step: FlowStep, place: Place) {
    step.Removed? ==> !Assigned(step.list, place)
  }

  /** A poll with an empty buffer fetches and pops; popping changes nothing but who holds a message. */
  lemma PollFetches(f: Flow, cfg: Config)
    requires f.consumer.buffer == [] && f.consumer.tpl != [] && Fetch(f.logs, f.consumer.tpl, cfg.limits).Fetched?
    ensures var g := FlowNext(f, PolledOnce, cfg); var h := AfterFetch(f, Fetch(f.logs, f.consumer.tpl, cfg.limits));
      g.consumer.tpl == h.consumer.tpl && g.starts == h.starts && g.Handed() == h.Handed()
  {
  }

  /** e was settled at the last message of its log, and something of it was handed out. */
  predicate Begun(f: Flow, g: Flow, e: Elem) {
    && LogOf(f.logs, e) != [] && PlaceOf(e) in g.starts && g.starts[PlaceOf(e)] == |LogOf(f.logs, e)| - 1
    && Of(g.Handed(), PlaceOf(e)) != []
  }

  lemma FetchBegins(f: Flow, g: Flow, takes: seq<seq<Message>>, lim: Limits, e: Elem)
    requires FetchedInto(f, g, takes, lim) && e in f.consumer.tpl && e.offset.End?
    ensures e in g.consumer.tpl || Begun(f, g, e)
  {
    var j :| 0 <= j < |f.consumer.tpl| && f.consumer.tpl[j] == e;
    assert takes[j - 0] == takes[j] && Advanced(f.logs, e, g.consumer.tpl[j], takes[j - 0]);
    if takes[j] != [] {
      assert CursorOk(f, e);
      FetchStarts(f, g, takes, lim, j);
      HandedBy(f, g, takes, lim, j);
    }
  }

  /** A poll settles an element at `End` only by taking from it, at the last message of its log. */
  lemma PollSettles(f: Flow, cfg: Config, e: Elem)
    requires Flowing(f) && e in f.consumer.tpl && e.offset.End?
    ensures var g := FlowNext(f, PolledOnce, cfg); e in g.consumer.tpl || Begun(f, g, e)
  {
    if f.consumer.buffer == [] {
      var takes := FetchFlows(f, cfg);
      var h := AfterFetch(f, Fetch(f.logs, f.consumer.tpl, cfg.limits));
      FetchBegins(f, h, takes, cfg.limits, e);
      PollFetches(f, cfg);
    }
  }

  /** k is the step that settled e, taking from its log for the first time. */
  ghost predicate SettledAt(f0: Flow, steps: seq<FlowStep>, cfg: Config, e: Elem, k: nat) {
    var o := FlowRun(f0, steps, cfg);
    && k < |steps| && steps[k].PolledOnce? && FlowRun(f0, steps[..k], cfg).Some? && o.Some?
    && e in FlowRun(f0, steps[..k], cfg).value.consumer.tpl
    && Begun(FlowRun(f0, steps[..k], cfg).value, o.value, e)
  }

  lemma {:induction false} SettledMore(f0: Flow, steps: seq<FlowStep>, cfg: Config, e: Elem, k: nat)
    requires Flowing(f0) && steps != [] && FlowRun(f0, steps, cfg).Some?
    requires SettledAt(f0, steps[..|steps| - 1], cfg, e, k)
    ensures SettledAt(f0, steps, cfg, e, k)
  {
    var init, last := steps[..|steps| - 1], steps[|steps| - 1];
    assert init[..k] == steps[..k];
    RunFlows(f0, init, cfg);
    var f := FlowRun(f0, init, cfg).value;
    StartKept(f, last, cfg, PlaceOf(e));
    HandedGrows(f, last, cfg);
    OfGrows(f.Handed(), FlowNext(f, last, cfg).Handed(), PlaceOf(e));
  }

  /** An element at `End` that stays assigned is still there, or some poll has settled it. */
  lemma {:induction false} EndIsTracked(f0: Flow, steps: seq<FlowStep>, cfg: Config, e: Elem)
    requires Flowing(f0) && e in f0.consumer.tpl && e.offset.End? && FlowRun(f0, steps, cfg).Some?
    requires forall step :: step in steps ==> Keeps(step, PlaceOf(e))
    ensures e in FlowRun(f0, steps, cfg).value.consumer.tpl || exists k: nat :: SettledAt(f0, steps, cfg, e, k)
  {
    if steps != [] {
      var n := |steps| - 1;
      assert steps[n] in steps;
      EndIsTracked(f0, steps[..n], cfg, e);
      RunFlows(f0, steps[..n], cfg);
      var f := FlowRun(f0, steps[..n], cfg).value;
      if e in f.consumer.tpl {
        EndStep(f, steps[n], cfg, e);
        if e !in FlowNext(f, steps[n], cfg).consumer.tpl {
          PollSettles(f, cfg, e);
          assert SettledAt(f0, steps, cfg, e, n);
        }
      } else {
        var k: nat :| SettledAt(f0, steps[..n], cfg, e, k);
        SettledMore(f0, steps, cfg, e, k);
      }
    }
  }

  lemma EndStep(f: Flow, step: FlowStep, cfg: Config, e: Elem)
    requires Flowing(f) && FlowGuard(f, step, cfg) && e in f.consumer.tpl && Keeps(step, PlaceOf(e))
    ensures e in FlowNext(f, step, cfg).consumer.tpl || step.PolledOnce?
  {
    if step.Added? {
      var tpl := AddNew(f.consumer.tpl, ResetAll(step.list, cfg.reset));
      AddNewKeeps(f.consumer.tpl, ResetAll(step.list, cfg.reset));
      var i :| 0 <= i < |f.consumer.tpl| && f.consumer.tpl[i] == e;
      assert tpl[..|f.consumer.tpl|][i] == e && tpl[i] == e;
    } else if step.Removed? {
      WithoutKeeps(f.consumer.tpl, step.list);
    }
  }

  /** Of a log that held the messages `had` at the assignment and L messages when one was first taken,
      `got` was given out: from message L - 1 on; beginning with the first new message if and only if
      L is one more than before; including an old message if and only if L is as before; and none of
      the new messages that came before the last one then found. */
  ghost predicate FromLast(got: seq<Message>, had: seq<Message>, log: seq<Message>, L: nat) {
    && 1 <= L && had <= log && |had| <= L && L - 1 + |got| <= |log|
    && got != [] && got == log[L - 1..L - 1 + |got|]
    && (got <= log[|had|..] <==> L == |had| + 1)
    && ((exists m :: m in got && m in had) <==> L == |had|)
    && (forall i :: |had| <= i < L - 1 ==> log[i] !in got)
  }

  lemma StretchFromLast(got: seq<Message>, had: seq<Message>, log: seq<Message>, L: nat)
    requires forall i :: 0 <= i < |log| ==> log[i].offset == i
    requires 1 <= L && had <= log && |had| <= L && L - 1 + |got| <= |log|
    requires got != [] && got == log[L - 1..L - 1 + |got|]
    ensures FromLast(got, had, log, L)
  {
    var n := |had|;
    assert got[0] == log[L - 1];
    if got <= log[n..] { assert got[0] == log[n..][0] == log[n]; }
    if L == n + 1 { assert log[n..][..|got|] == got; }
    if L == n { assert had[n - 1] == got[0] && got[0] in got && got[0] in had; }
    forall i, j | 0 <= i < |got| && 0 <= j < |log| && got[i] == log[j] ensures j == L - 1 + i {
      assert got[i] == log[L - 1 + i];
    }
    if m :| m in got && m in had {
      var i :| 0 <= i < |got| && got[i] == m;
      var j :| 0 <= j < n && had[j] == m;
      assert log[j] == had[j];
    }
  }

  /** The `latest` policy over any run.  Of a partition assigned at `End` that stays assigned, either
      nothing was given out and it still waits, or some poll k took from it first, and what was given
      out begins with the last message there was at that poll. */
  lemma {:induction false} LatestOverRuns(f0: Flow, steps: seq<FlowStep>, cfg: Config, e: Elem)
    requires Flowing(f0) && e in f0.consumer.tpl && e.offset.End? && FlowRun(f0, steps, cfg).Some?
    requires forall step :: step in steps ==> Keeps(step, PlaceOf(e))
    ensures var f := FlowRun(f0, steps, cfg).value; var got := Of(f.Handed(), PlaceOf(e));
      || (e in f.consumer.tpl && got == [])
      || exists k: nat :: SettledAt(f0, steps, cfg, e, k) &&
           FromLast(got, LogOf(f0.logs, e), LogOf(f.logs, e), |LogOf(FlowRun(f0, steps[..k], cfg).value.logs, e)|)
  {
    RunFlows(f0, steps, cfg);
    var f := FlowRun(f0, steps, cfg).value;
    assert PlaceOk(f, PlaceOf(e));
    EndIsTracked(f0, steps, cfg, e);
    if e in f.consumer.tpl {
      assert CursorOk(f, e);
    } else {
      var k: nat :| SettledAt(f0, steps, cfg, e, k);
      SettledFromLast(f0, steps, cfg, e, k);
    }
  }

  lemma {:induction false} SettledFromLast(f0: Flow, steps: seq<FlowStep>, cfg: Config, e: Elem, k: nat)
    requires Flowing(f0) && SettledAt(f0, steps, cfg, e, k) && Flowing(FlowRun(f0, steps, cfg).value)
    ensures var f := FlowRun(f0, steps, cfg).value; var got := Of(f.Handed(), PlaceOf(e));
      FromLast(got, LogOf(f0.logs, e), LogOf(f.logs, e), |LogOf(FlowRun(f0, steps[..k], cfg).value.logs, e)|)
  {
    RunGrows(f0, steps[..k], cfg, PlaceOf(e));
    RunGrows(f0, steps, cfg, PlaceOf(e));
    BegunFromLast(FlowRun(f0, steps[..k], cfg).value, FlowRun(f0, steps, cfg).value, e, LogOf(f0.logs, e));
  }

  lemma BegunFromLast(g: Flow, f: Flow, e: Elem, had: seq<Message>)
    requires Flowing(f) && Begun(g, f, e) && had <= LogOf(g.logs, e) && had <= LogOf(f.logs, e)
    ensures FromLast(Of(f.Handed(), PlaceOf(e)), had, LogOf(f.logs, e), |LogOf(g.logs, e)|)
  {
    assert PlaceOk(f, PlaceOf(e));
    DenseOffsets(f.logs, e);
    StretchFromLast(Of(f.Handed(), PlaceOf(e)), had, LogOf(f.logs, e), |LogOf(g.logs, e)|);
  }

  lemma DenseOffsets(b: Logs, e: Elem)
    requires Dense(b)
    ensures forall i :: 0 <= i < |LogOf(b, e)| ==> LogOf(b, e)[i].offset == i
  {
    if Known(b, e) { assert DenseLog(GetPartition(b, e.topic, e.partition).partition, e.topic, e.partition); }
  }

  // ---- the two ways it goes wrong, in single fetches ---------------------------------------------

  /** Under the `latest` policy a partition with messages is delivered from its last message on, not
      from behind it: the first fetch hands out that message and leaves the cursor at the end. */
  lemma LatestFromLast(b: Logs, e: Elem, cfg: Config)
    requires Dense(b) && Known(b, e) && LogOf(b, e) != [] && cfg.reset.Latest? && e.offset.Invalid?
    requires !TooBig(LogOf(b, e)[|LogOf(b, e)| - 1], cfg.limits)
    ensures var log := LogOf(b, e);
      Fetch(b, ResetAll([e], cfg.reset), cfg.limits) == Fetched([log[|log| - 1]], [e.(offset := At(|log|))])
  {
    var p := GetPartition(b, e.topic, e.partition).partition;
    var x := e.(offset := End);
    var n := |p.msgs| - 1;
    assert DenseLog(p, e.topic, e.partition);
    assert ResetAll([e], cfg.reset) == [x];
    var y := x.(offset := At(n + 1));
    assert ScanFrom(p, n + 1, y, [p.msgs[n]], Size(p.msgs[n]), Size(p.msgs[n]), cfg.limits) ==
      Scan(y, [p.msgs[n]], Size(p.msgs[n]), false);
    assert [] + [p.msgs[n]] == [p.msgs[n]];
    assert ScanFrom(p, n, x, [], 0, 0, cfg.limits) == Scan(y, [p.msgs[n]], Size(p.msgs[n]), false);
    assert [x][0 := y] == [y];
    assert FetchFrom(b, [y], 1, [p.msgs[n]], Size(p.msgs[n]), cfg.limits) == Fetched([p.msgs[n]], [y]);
  }

  /** A partition empty at the first fetch stays at `End`; of the messages that arrive before the next
      fetch, only the last is given out and the cursor passes the others by. */
  lemma LatestSkips(b: Logs, later: Logs, e: Elem, cfg: Config)
    requires Known(b, e) && LogOf(b, e) == [] && cfg.reset.Latest? && e.offset.Invalid?
    requires Dense(later) && Known(later, e) && |LogOf(later, e)| >= 2
    requires !TooBig(LogOf(later, e)[|LogOf(later, e)| - 1], cfg.limits)
    ensures var tpl := ResetAll([e], cfg.reset); var log := LogOf(later, e);
      && Fetch(b, tpl, cfg.limits) == Fetched([], tpl)
      && Fetch(later, tpl, cfg.limits) == Fetched([log[|log| - 1]], [e.(offset := At(|log|))])
  {
    LatestFromLast(later, e, cfg);
    var tpl := ResetAll([e], cfg.reset);
    assert FetchFrom(b, tpl, 1, [], 0, cfg.limits) == Fetched([], tpl);
  }
}
