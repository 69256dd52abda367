/** The assignment over whole runs: which partitions are assigned, where their delivery begins, and that
    nothing more is fetched of a partition that was removed. */
module KafkaAssignment {
  import opened KafkaBroker
  import opened KafkaFetch
  import opened KafkaConsumer
  import opened KafkaDelivery

  // ---- which partitions are assigned -----------------------------------------------------

  /** What the additions and removals of a run make of a place: the last one that names it decides. */
  predicate AssignedAfter(before: bool, steps: seq<FlowStep>, place: Place) {
    if steps == [] then before
    else
      var last := steps[|steps| - 1];
      var was := AssignedAfter(before, steps[..|steps| - 1], place);
      if last.Added? then was || Assigned(last.list, place)
      else if last.Removed? then was && !Assigned(last.list, place)
      else was
  }

  lemma ResetKeepsPlaces(list: seq<Elem>, reset: ResetPolicy, place: Place)
    ensures Assigned(ResetAll(list, reset), place) <==> Assigned(list, place)
  {
    var r := ResetAll(list, reset);
    if e :| e in list && PlaceOf(e) == place {
      var i :| 0 <= i < |list| && list[i] == e;
      assert r[i] in r && PlaceOf(r[i]) == place;
    }
    if e :| e in r && PlaceOf(e) == place {
      var i :| 0 <= i < |r| && r[i] == e;
      assert list[i] in list && PlaceOf(list[i]) == place;
    }
  }

  lemma AssignedMore(tpl: seq<Elem>, e: Elem, place: Place)
    ensures Assigned(tpl + [e], place) <==> Assigned(tpl, place) || PlaceOf(e) == place
  {
    assert forall x :: x in tpl + [e] <==> x in tpl || x == e;
  }

  lemma {:induction false} AddNewPlaces(tpl: seq<Elem>, list: seq<Elem>, place: Place)
    ensures Assigned(AddNew(tpl, list), place) <==> Assigned(tpl, place) || Assigned(list, place)
  {
    if list != [] {
      var n := |list| - 1;
      AddNewPlaces(tpl, list[..n], place);
      assert list == list[..n] + [list[n]];
      AssignedMore(list[..n], list[n], place);
      AssignedMore(AddNew(tpl, list[..n]), list[n], place);
    }
  }

  lemma SamePlaces(a: seq<Elem>, b: seq<Elem>, place: Place)
    requires |a| == |b| && forall i :: 0 <= i < |a| ==> PlaceOf(a[i]) == PlaceOf(b[i])
    ensures Assigned(a, place) <==> Assigned(b, place)
  {
    if e :| e in a && PlaceOf(e) == place {
      var i :| 0 <= i < |a| && a[i] == e;
      assert b[i] in b;
    }
    if e :| e in b && PlaceOf(e) == place {
      var i :| 0 <= i < |b| && b[i] == e;
      assert a[i] in a;
    }
  }

  /** A poll moves cursors only. */
  lemma PollKeepsPlaces(f: Flow, cfg: Config, place: Place)
    requires Flowing(f)
    ensures var g := FlowNext(f, PolledOnce, cfg);
      && |g.consumer.tpl| == |f.consumer.tpl|
      && (Assigned(g.consumer.tpl, place) <==> Assigned(f.consumer.tpl, place))
  {
    PollFlows(f, cfg);
    var tpl := f.consumer.tpl;
    if f.consumer.buffer == [] && tpl != [] {
      var takes := FetchFlows(f, cfg);
      var tpl' := Fetch(f.logs, tpl, cfg.limits).tpl;
      forall i | 0 <= i < |tpl| ensures PlaceOf(tpl'[i]) == PlaceOf(tpl[i]) {
        assert tpl[i] in tpl && Advanced(f.logs, tpl[i], tpl'[i], takes[i - 0]);
      }
      SamePlaces(tpl', tpl, place);
    }
  }

  lemma StepAssigns(f: Flow, step: FlowStep, cfg: Config, place: Place)
    requires Flowing(f) && FlowGuard(f, step, cfg)
    ensures var was := Assigned(f.consumer.tpl, place);
      Assigned(FlowNext(f, step, cfg).consumer.tpl, place) <==>
        if step.Added? then was || Assigned(step.list, place)
        else if step.Removed? then was && !Assigned(step.list, place)
        else was
  {
    match step
    case PolledOnce => PollKeepsPlaces(f, cfg, place);
    case Added(list) =>
      ResetKeepsPlaces(list, cfg.reset, place);
      AddNewPlaces(f.consumer.tpl, ResetAll(list, cfg.reset), place);
    case Removed(list) => WithoutKeeps(f.consumer.tpl, list);
    case _ =>
  }

  /** After any run a partition is assigned exactly if the additions and removals say so. */
  lemma {:induction false} AssignmentByHistory(f: Flow, steps: seq<FlowStep>, cfg: Config, place: Place)
    requires Flowing(f) && FlowRun(f, steps, cfg).Some?
    ensures Assigned(FlowRun(f, steps, cfg).value.consumer.tpl, place) <==>
      AssignedAfter(Assigned(f.consumer.tpl, place), steps, place)
  {
    if steps != [] {
      var n := |steps| - 1;
      AssignmentByHistory(f, steps[..n], cfg, place);
      RunFlows(f, steps[..n], cfg);
      StepAssigns(FlowRun(f, steps[..n], cfg).value, steps[n], cfg, place);
    }
  }

  // ---- nothing more of a removed partition -----------------------------------------------

  lemma FetchSilent(f: Flow, cfg: Config, place: Place)
    requires Flowing(f) && f.consumer.buffer == [] && !Assigned(f.consumer.tpl, place)
    ensures Fetch(f.logs, f.consumer.tpl, cfg.limits).Fetched?
    ensures Of(f.delivered + Fetch(f.logs, f.consumer.tpl, cfg.limits).msgs, place) == Of(f.delivered, place)
  {
    var tpl := f.consumer.tpl;
    var takes := FetchFlows(f, cfg);
    forall j | 0 <= j < |tpl| ensures PlaceOf(tpl[j]) != place { assert tpl[j] in tpl; }
    OfJoinedNone(f.logs, tpl, Fetch(f.logs, tpl, cfg.limits).tpl, takes, cfg.limits, 0, place);
    assert takes[0..] == takes && [] + Joined(takes) == Joined(takes);
    OfConcat(f.delivered, Joined(takes), place);
  }

  lemma PopHands(c: Consumer, delivered: seq<Message>)
    ensures var o := Pop(c);
      (delivered + if o.msg.Some? then [o.msg.value] else []) + o.consumer.buffer == delivered + c.buffer
  {
    if c.buffer != [] { assert c.buffer == [c.buffer[0]] + c.buffer[1..]; }
  }

  /** What a poll hands over: what was handed before, or that and the messages it fetched. */
  lemma PollHands(f: Flow, cfg: Config)
    requires Poll(f.logs, f.consumer, cfg).Polled?
    ensures var g := FlowNext(f, PolledOnce, cfg); var r := Fetch(f.logs, f.consumer.tpl, cfg.limits);
      if f.consumer.buffer != [] || f.consumer.tpl == [] then g.Handed() == f.Handed()
      else r.Fetched? && g.Handed() == f.delivered + r.msgs
  {
    if f.consumer.buffer == [] && f.consumer.tpl != [] {
      var r := Fetch(f.logs, f.consumer.tpl, cfg.limits);
      PopHands(Consumer(r.tpl, r.msgs), f.delivered);
    } else {
      PopHands(f.consumer, f.delivered);
    }
  }

  /** A poll hands out nothing of a place that is not assigned. */
  lemma PollSilent(f: Flow, cfg: Config, place: Place)
    requires Flowing(f) && !Assigned(f.consumer.tpl, place)
    ensures Of(FlowNext(f, PolledOnce, cfg).Handed(), place) == Of(f.Handed(), place)
  {
    PollFlows(f, cfg);
    PollHands(f, cfg);
    if f.consumer.buffer == [] && f.consumer.tpl != [] {
      FetchSilent(f, cfg, place);
      assert f.Handed() == f.delivered;
    }
  }

  /** Once a partition is removed, all that is still given out of it is what was buffered then, through
      any run that does not add it again. */
  lemma {:induction false} RemovedIsSilent(f: Flow, list: seq<Elem>, steps: seq<FlowStep>, cfg: Config, place: Place)
    requires Flowing(f) && Assigned(list, place) && FlowRun(FlowNext(f, Removed(list), cfg), steps, cfg).Some?
    requires forall step :: step in steps && step.Added? ==> !Assigned(step.list, place)
    ensures var g := FlowRun(FlowNext(f, Removed(list), cfg), steps, cfg).value;
      && Flowing(g) && !Assigned(g.consumer.tpl, place)
      && Of(g.delivered + g.consumer.buffer, place) == Of(f.delivered + f.consumer.buffer, place)
  {
    var f1 := FlowNext(f, Removed(list), cfg);
    FlowNextFlows(f, Removed(list), cfg);
    if steps == [] {
      StepAssigns(f, Removed(list), cfg, place);
    } else {
      var n := |steps| - 1;
      assert steps == steps[..n] + [steps[n]];
      RemovedIsSilent(f, list, steps[..n], cfg, place);
      var h := FlowRun(f1, steps[..n], cfg).value;
      FlowNextFlows(h, steps[n], cfg);
      StepAssigns(h, steps[n], cfg, place);
      if steps[n].PolledOnce? { PollSilent(h, cfg, place); }
    }
  }

  // ---- where delivery begins -------------------------------------------------------------

  /** What the policy makes of an element that names no offset; others stay as they are. */
  predicate Asked(e: Elem, e0: Elem, reset: ResetPolicy) {
    && PlaceOf(e0) == PlaceOf(e)
    && if !e.offset.Invalid? then e0.offset == e.offset
       else e0.offset == match reset { case Latest => End case Earliest => Beginning case NoReset => Invalid }
  }

  /** An assignment holds what was asked for, in that order, and each partition that names an offset or gets
      one by the policy is delivered from there over any run. */
  lemma {:induction false} DeliveredAsAsked(b: Logs, c: Consumer, list: seq<Elem>, steps: seq<FlowStep>, cfg: Config,
                                            i: nat)
    requires i < |list|
    ensures var tpl := Assign(c, list, cfg).tpl;
      && |tpl| == |list| && Asked(list[i], tpl[i], cfg.reset) && Assign(c, list, cfg).buffer == c.buffer
      && (Dense(b) && c.buffer == [] && Distinct(list) && Fetchable(b, tpl) && Settled(tpl[i])
          && FlowRun(FreshFlow(b, Assign(c, list, cfg)), steps, cfg).Some? ==>
            DeliversFrom(FlowRun(FreshFlow(b, Assign(c, list, cfg)), steps, cfg).value, tpl[i]))
  {
    var c' := Assign(c, list, cfg);
    if Dense(b) && c.buffer == [] && Distinct(list) && Fetchable(b, c'.tpl) && Settled(c'.tpl[i])
       && FlowRun(FreshFlow(b, c'), steps, cfg).Some? {
      assert c'.tpl[i] in c'.tpl;
      GapFree(b, c', steps, cfg, c'.tpl[i]);
    }
  }
}
