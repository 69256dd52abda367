/** Delivery over whole runs: per partition, what a consumer was handed is a gap-free and
    duplicate-free stretch of the log up to its cursor, and polling drains the logs. */
module KafkaDelivery {
  import opened ByteStrings
  import opened KafkaBroker
  import opened KafkaFetch
  import opened KafkaConsumer

  /** Broker and consumer, with what the consumer's owner has been given so far and the position
      each place was started at: where it was assigned, or where the first fetch that took anything
      settled its `End`. */
  datatype Flow = Flow(logs: Logs, consumer: Consumer, delivered: seq<Message>, starts: map<Place, nat>) {
    function Handed(): seq<Message> { delivered + consumer.buffer }
  }

  /** got is the stretch of the log of length |got| from start on. */
  predicate Stretch(got: seq<Message>, log: seq<Message>, start: nat) {
    got == [] || (start + |got| <= |log| && got == log[start..start + |got|])
  }

  predicate PlaceOk(f: Flow, place: Place) {
    if place in f.starts then Stretch(Of(f.Handed(), place), Log(f.logs, place.0, place.1), f.starts[place])
    else Of(f.Handed(), place) == []
  }

  predicate CursorOk(f: Flow, e: Elem) {
    && Known(f.logs, e) && Readable(e)
    && if Settled(e) then
         && PlaceOf(e) in f.starts
         && Cursor(e) == f.starts[PlaceOf(e)] + |Of(f.Handed(), PlaceOf(e))|
       else PlaceOf(e) !in f.starts
  }

  /** Every place was handed a stretch of its log from where it was started, and the cursor of an
      assigned place stands at the end of that stretch, or is still to be settled. */
  ghost predicate Flowing(f: Flow) {
    && Dense(f.logs) && Distinct(f.consumer.tpl)
    && (forall place :: PlaceOk(f, place))
    && (forall e :: e in f.consumer.tpl ==> CursorOk(f, e))
  }

  datatype FlowStep =
    | Produced(batch: seq<Message>)
    | PolledOnce
    | PollLost                       // the request or its answer is lost on the way
    | Added(list: seq<Elem>)
    | Removed(list: seq<Elem>)

  function StartsOf(tpl: seq<Elem>): map<Place, nat> {
    if tpl == [] then map[]
    else
      var e := tpl[|tpl| - 1];
      var starts := StartsOf(tpl[..|tpl| - 1]);
      if Settled(e) then starts[PlaceOf(e) := Cursor(e)] else starts
  }

  /** The places a fetch from tpl to tpl' has settled. */
  function SettledBy(b: Logs, tpl: seq<Elem>, tpl': seq<Elem>): map<Place, nat> {
    map e | e in tpl && e.offset.End? && e !in tpl' :: PlaceOf(e) := StartOf(b, e)
  }

  /** What the environment must respect: no panicking produce, and places are added at a readable
      offset of a known partition, unless still assigned never once they were started. */
  predicate FlowGuard(f: Flow, step: FlowStep, cfg: Config) {
    match step
    case Produced(batch) => !Produce(f.logs, batch).ProducePanic?
    case Added(list) =>
      forall e :: e in ResetAll(list, cfg.reset) ==>
        Known(f.logs, e) && Readable(e) && (Assigned(f.consumer.tpl, PlaceOf(e)) || PlaceOf(e) !in f.starts)
    case _ => true
  }

  lemma {:induction false} AddNewKeeps(tpl: seq<Elem>, list: seq<Elem>)
    ensures |tpl| <= |AddNew(tpl, list)| && AddNew(tpl, list)[..|tpl|] == tpl
    ensures forall i :: |tpl| <= i < |AddNew(tpl, list)| ==>
      AddNew(tpl, list)[i] in list && !Assigned(tpl, PlaceOf(AddNew(tpl, list)[i]))
    ensures Distinct(tpl) ==> Distinct(AddNew(tpl, list))
  {
    if list != [] {
      AddNewKeeps(tpl, list[..|list| - 1]);
      var t := AddNew(tpl, list[..|list| - 1]);
      var e := list[|list| - 1];
      assert e in list;
      if !Assigned(t, PlaceOf(e)) {
        assert (t + [e])[..|tpl|] == t[..|tpl|];
        assert forall x :: x in tpl ==> x in t;
        forall i | 0 <= i < |t| ensures PlaceOf(t[i]) != PlaceOf(e) { assert t[i] in t; }
      }
    }
  }

  function FlowNext(f: Flow, step: FlowStep, cfg: Config): Flow
    requires FlowGuard(f, step, cfg)
  {
    match step
    case Produced(batch) => f.(logs := Produce(f.logs, batch).logs)
    case PolledOnce =>
      var o := Poll(f.logs, f.consumer, cfg);
      if o.Polled? then
        Flow(f.logs, o.consumer, f.delivered + if o.msg.Some? then [o.msg.value] else [],
             f.starts + SettledBy(f.logs, f.consumer.tpl, o.consumer.tpl))
      else f
    case PollLost => f
    case Added(list) =>
      var c := IncrementalAssign(f.consumer, list, cfg);
      AddNewKeeps(f.consumer.tpl, ResetAll(list, cfg.reset));
      f.(consumer := c, starts := f.starts + StartsOf(c.tpl[|f.consumer.tpl|..]))
    case Removed(list) => f.(consumer := IncrementalUnassign(f.consumer, list))
  }

  // ---- each step keeps the flow ----------------------------------------------------------

  lemma GrownLog(b: Logs, b': Logs, place: Place)
    requires Grows(b, b')
    ensures Log(b, place.0, place.1) <= Log(b', place.0, place.1)
    ensures GetPartition(b, place.0, place.1).Found? ==> GetPartition(b', place.0, place.1).Found?
  {
    if place.0 in b { assert |b[place.0].partitions| == |b'[place.0].partitions|; }
  }

  lemma ProducedFlows(f: Flow, batch: seq<Message>)
    requires Flowing(f) && !Produce(f.logs, batch).ProducePanic?
    ensures Flowing(f.(logs := Produce(f.logs, batch).logs))
  {
    ProduceGrows(f.logs, batch);
    var g := f.(logs := Produce(f.logs, batch).logs);
    forall place ensures PlaceOk(g, place) {
      assert PlaceOk(f, place);
      GrownLog(f.logs, g.logs, place);
    }
    forall e | e in g.consumer.tpl ensures CursorOk(g, e) {
      assert CursorOk(f, e);
      GrownLog(f.logs, g.logs, PlaceOf(e));
    }
  }

  lemma SameHanded(f: Flow, g: Flow)
    requires Flowing(f) && g.logs == f.logs && g.starts == f.starts && g.Handed() == f.Handed()
    requires Distinct(g.consumer.tpl) && forall e :: e in g.consumer.tpl ==> e in f.consumer.tpl
    ensures Flowing(g)
  {
    forall place ensures PlaceOk(g, place) { assert PlaceOk(f, place); }
    forall e | e in g.consumer.tpl ensures CursorOk(g, e) { assert CursorOk(f, e); }
  }

  /** Popping moves a message from the buffer to the delivered ones: what was handed stays. */
  lemma PopFlows(f: Flow)
    requires Flowing(f) && f.consumer.buffer != []
    ensures Flowing(f.(consumer := Pop(f.consumer).consumer, delivered := f.delivered + [f.consumer.buffer[0]]))
  {
    var g := f.(consumer := Pop(f.consumer).consumer, delivered := f.delivered + [f.consumer.buffer[0]]);
    assert g.Handed() == f.Handed();
    SameHanded(f, g);
  }

  /** One assigned place in a fetch: the stretch handed out grows by what the cursor moved over. */
  lemma PlaceFetched(f: Flow, g: Flow, e: Elem, e': Elem, taken: seq<Message>)
    requires g.logs == f.logs && PlaceOk(f, PlaceOf(e)) && CursorOk(f, e) && Advanced(f.logs, e, e', taken)
    requires Started(f, g, e, taken)
    requires Of(g.Handed(), PlaceOf(e)) == Of(f.Handed(), PlaceOf(e)) + taken
    ensures PlaceOk(g, PlaceOf(e)) && CursorOk(g, e')
  {
    var got, log := Of(f.Handed(), PlaceOf(e)), LogOf(f.logs, e);
    assert got + [] == got;
    if got != [] && taken != [] {
      var start := f.starts[PlaceOf(e)];
      assert log[start..Cursor(e)] + log[Cursor(e)..Cursor(e')] == log[start..Cursor(e')];
    } else if taken != [] {
      assert [] + taken == taken;
    }
  }

  /** Where g has the place of e start: where f had it, or where e was settled by taking. */
  ghost predicate Started(f: Flow, g: Flow, e: Elem, taken: seq<Message>)
    requires Readable(e)
  {
    if PlaceOf(e) in f.starts || Settled(e) || taken == [] then
      && (PlaceOf(e) in g.starts <==> PlaceOf(e) in f.starts)
      && (PlaceOf(e) in g.starts ==> g.starts[PlaceOf(e)] == f.starts[PlaceOf(e)])
    else PlaceOf(e) in g.starts && g.starts[PlaceOf(e)] == StartOf(f.logs, e)
  }

  lemma FlowingFetchable(f: Flow)
    requires Flowing(f)
    ensures Fetchable(f.logs, f.consumer.tpl)
  {
    forall e | e in f.consumer.tpl ensures Known(f.logs, e) && Readable(e) { assert CursorOk(f, e); }
  }

  /** g is f after a fetch that took `takes`. */
  ghost predicate FetchedInto(f: Flow, g: Flow, takes: seq<seq<Message>>, lim: Limits) {
    && Flowing(f) && Fetchable(f.logs, f.consumer.tpl) && f.consumer.buffer == []
    && g.logs == f.logs && g.Handed() == f.delivered + Joined(takes)
    && g.starts == f.starts + SettledBy(f.logs, f.consumer.tpl, g.consumer.tpl)
    && AllAdvanced(f.logs, f.consumer.tpl, g.consumer.tpl, 0, takes, lim)
  }

  /** A fetch settles exactly the places it takes from at `End`. */
  lemma SettledByTaking(b: Logs, tpl: seq<Elem>, tpl': seq<Elem>, takes: seq<seq<Message>>, lim: Limits, j: nat)
    requires Fetchable(b, tpl) && Distinct(tpl) && AllAdvanced(b, tpl, tpl', 0, takes, lim) && j < |tpl|
    ensures var e := tpl[j]; var settled := SettledBy(b, tpl, tpl');
      && (PlaceOf(e) in settled <==> e.offset.End? && takes[j] != [])
      && (PlaceOf(e) in settled ==> settled[PlaceOf(e)] == StartOf(b, e))
  {
    var e := tpl[j];
    assert e in tpl;
    forall i | 0 <= i < |tpl| ensures PlaceOf(tpl'[i]) == PlaceOf(tpl[i]) {
      assert tpl[i] in tpl && Advanced(b, tpl[i], tpl'[i], takes[i - 0]);
    }
    assert Advanced(b, tpl[j], tpl'[j], takes[j - 0]);
    forall x | x in tpl && PlaceOf(x) == PlaceOf(e) ensures x == e {
      var i :| 0 <= i < |tpl| && tpl[i] == x;
    }
    if takes[j] == [] { assert tpl'[j] == e && e in tpl'; }
    if e in tpl' {
      var i :| 0 <= i < |tpl'| && tpl'[i] == e;
      assert PlaceOf(tpl[i]) == PlaceOf(tpl[j]);
    }
  }

  lemma FetchStarts(f: Flow, g: Flow, takes: seq<seq<Message>>, lim: Limits, j: nat)
    requires FetchedInto(f, g, takes, lim) && j < |f.consumer.tpl|
    ensures Started(f, g, f.consumer.tpl[j], takes[j])
  {
    assert f.consumer.tpl[j] in f.consumer.tpl && CursorOk(f, f.consumer.tpl[j]);
    SettledByTaking(f.logs, f.consumer.tpl, g.consumer.tpl, takes, lim, j);
  }

  lemma {:induction false} FetchedElem(f: Flow, g: Flow, takes: seq<seq<Message>>, lim: Limits, j: nat)
    requires FetchedInto(f, g, takes, lim) && j < |f.consumer.tpl|
    ensures PlaceOk(g, PlaceOf(f.consumer.tpl[j])) && CursorOk(g, g.consumer.tpl[j])
    ensures PlaceOf(g.consumer.tpl[j]) == PlaceOf(f.consumer.tpl[j])
  {
    var tpl, e := f.consumer.tpl, f.consumer.tpl[j];
    assert e in tpl && CursorOk(f, e) && PlaceOk(f, PlaceOf(e));
    assert takes[j - 0] == takes[j] && Advanced(f.logs, tpl[j], g.consumer.tpl[j], takes[j - 0]);
    HandedBy(f, g, takes, lim, j);
    FetchStarts(f, g, takes, lim, j);
    PlaceFetched(f, g, e, g.consumer.tpl[j], takes[j]);
  }

  lemma HandedBy(f: Flow, g: Flow, takes: seq<seq<Message>>, lim: Limits, j: nat)
    requires FetchedInto(f, g, takes, lim) && j < |f.consumer.tpl|
    ensures var place := PlaceOf(f.consumer.tpl[j]); Of(g.Handed(), place) == Of(f.Handed(), place) + takes[j]
  {
    assert f.Handed() == f.delivered;
    JoinedFor(f.logs, f.consumer.tpl, g.consumer.tpl, f.delivered, takes, lim, j);
  }

  lemma JoinedFor(b: Logs, tpl: seq<Elem>, tpl': seq<Elem>, delivered: seq<Message>, takes: seq<seq<Message>>,
                  lim: Limits, j: nat)
    requires Dense(b) && Fetchable(b, tpl) && Distinct(tpl) && AllAdvanced(b, tpl, tpl', 0, takes, lim) && j < |tpl|
    ensures var place := PlaceOf(tpl[j]); Of(delivered + Joined(takes), place) == Of(delivered, place) + takes[j]
  {
    OfJoined(b, tpl, tpl', takes, lim, 0, j);
    assert takes[0..] == takes;
    OfConcat(delivered, Joined(takes), PlaceOf(tpl[j]));
  }

  lemma FetchedOther(f: Flow, g: Flow, takes: seq<seq<Message>>, lim: Limits, place: Place)
    requires FetchedInto(f, g, takes, lim)
    requires forall j :: 0 <= j < |f.consumer.tpl| ==> PlaceOf(f.consumer.tpl[j]) != place
    ensures PlaceOk(g, place)
  {
    assert PlaceOk(f, place);
    OfJoinedNone(f.logs, f.consumer.tpl, g.consumer.tpl, takes, lim, 0, place);
    assert takes[0..] == takes && f.Handed() == f.delivered;
    OfConcat(f.delivered, Joined(takes), place);
    assert Of(f.delivered, place) + [] == Of(f.delivered, place);
  }

  lemma FetchedFlows(f: Flow, g: Flow, takes: seq<seq<Message>>, lim: Limits)
    requires FetchedInto(f, g, takes, lim)
    ensures Flowing(g)
  {
    forall j | 0 <= j < |g.consumer.tpl|
      ensures PlaceOk(g, PlaceOf(f.consumer.tpl[j])) && CursorOk(g, g.consumer.tpl[j])
      ensures PlaceOf(g.consumer.tpl[j]) == PlaceOf(f.consumer.tpl[j])
    {
      FetchedElem(f, g, takes, lim, j);
    }
    forall place ensures PlaceOk(g, place) {
      if j :| 0 <= j < |f.consumer.tpl| && PlaceOf(f.consumer.tpl[j]) == place {
      } else {
        FetchedOther(f, g, takes, lim, place);
      }
    }
  }

  /** f after a fetch, before a message is popped. */
  function AfterFetch(f: Flow, r: FetchResult): Flow
    requires r.Fetched?
  {
    Flow(f.logs, Consumer(r.tpl, r.msgs), f.delivered, f.starts + SettledBy(f.logs, f.consumer.tpl, r.tpl))
  }

  /** A fetch extends, for every assigned place, the stretch handed out by the stretch its cursor
      moved over, settles the places it takes from at `End`, and hands out nothing else. */
  lemma FetchFlows(f: Flow, cfg: Config) returns (takes: seq<seq<Message>>)
    requires Flowing(f) && f.consumer.buffer == []
    ensures Fetchable(f.logs, f.consumer.tpl)
    ensures HandsOut(f.logs, f.consumer.tpl, 0, [], 0, cfg.limits, takes, Fetch(f.logs, f.consumer.tpl, cfg.limits))
    ensures var g := AfterFetch(f, Fetch(f.logs, f.consumer.tpl, cfg.limits));
      FetchedInto(f, g, takes, cfg.limits) && Flowing(g)
  {
    FlowingFetchable(f);
    takes := FetchFromExact(f.logs, f.consumer.tpl, 0, [], 0, cfg.limits);
    assert [] + Joined(takes) == Joined(takes);
    FetchedFlows(f, AfterFetch(f, Fetch(f.logs, f.consumer.tpl, cfg.limits)), takes, cfg.limits);
  }

  lemma NothingSettled(b: Logs, tpl: seq<Elem>, starts: map<Place, nat>)
    ensures starts + SettledBy(b, tpl, tpl) == starts
  {
  }

  /** Polls never fail on such a flow, and keep it. */
  lemma PollFlows(f: Flow, cfg: Config)
    requires Flowing(f)
    ensures Poll(f.logs, f.consumer, cfg).Polled? && Flowing(FlowNext(f, PolledOnce, cfg))
  {
    NothingSettled(f.logs, f.consumer.tpl, f.starts);
    if f.consumer.buffer != [] {
      PopFlows(f);
    } else if f.consumer.tpl != [] {
      var takes := FetchFlows(f, cfg);
      var g := AfterFetch(f, Fetch(f.logs, f.consumer.tpl, cfg.limits));
      if g.consumer.buffer != [] { PopFlows(g); } else { assert f.delivered + [] == f.delivered; }
    } else {
      assert f.delivered + [] == f.delivered;
    }
  }

  lemma {:induction false} StartsOfExact(tpl: seq<Elem>)
    requires Distinct(tpl)
    ensures forall place :: place in StartsOf(tpl) ==> Assigned(tpl, place)
    ensures forall e :: e in tpl ==> (PlaceOf(e) in StartsOf(tpl) <==> Settled(e))
    ensures forall e :: e in tpl && Settled(e) ==> StartsOf(tpl)[PlaceOf(e)] == Cursor(e)
  {
    if tpl != [] {
      var n := |tpl| - 1;
      assert tpl == tpl[..n] + [tpl[n]];
      StartsOfExact(tpl[..n]);
      assert tpl[n] in tpl;
      forall place | place in StartsOf(tpl) ensures Assigned(tpl, place) {
        if place in StartsOf(tpl[..n]) {
          assert Assigned(tpl[..n], place);
          var e :| e in tpl[..n] && PlaceOf(e) == place;
          assert e in tpl;
        }
      }
      assert !Assigned(tpl[..n], PlaceOf(tpl[n]));
    }
  }

  ghost predicate Newcomers(f: Flow, added: seq<Elem>) {
    && Distinct(added)
    && forall e :: e in added ==> Known(f.logs, e) && Readable(e) && PlaceOf(e) !in f.starts
  }

  lemma ApartFrom(tpl: seq<Elem>, added: seq<Elem>, e: Elem)
    requires Distinct(tpl + added) && e in tpl
    ensures !Assigned(added, PlaceOf(e))
  {
    var i :| 0 <= i < |tpl| && tpl[i] == e;
    forall x | x in added ensures PlaceOf(x) != PlaceOf(e) {
      var j :| 0 <= j < |added| && added[j] == x;
      assert (tpl + added)[i] == e && (tpl + added)[|tpl| + j] == x;
    }
  }

  lemma NewcomersFlow(f: Flow, added: seq<Elem>)
    requires Flowing(f) && Newcomers(f, added) && Distinct(f.consumer.tpl + added)
    ensures Flowing(f.(consumer := f.consumer.(tpl := f.consumer.tpl + added), starts := f.starts + StartsOf(added)))
  {
    var g := f.(consumer := f.consumer.(tpl := f.consumer.tpl + added), starts := f.starts + StartsOf(added));
    StartsOfExact(added);
    assert g.Handed() == f.Handed();
    forall place ensures PlaceOk(g, place) {
      assert PlaceOk(f, place);
      if place in StartsOf(added) { assert Assigned(added, place); var e :| e in added && PlaceOf(e) == place; }
    }
    forall e | e in g.consumer.tpl ensures CursorOk(g, e) {
      if e in added {
        assert PlaceOk(f, PlaceOf(e));
      } else {
        assert CursorOk(f, e);
        ApartFrom(f.consumer.tpl, added, e);
      }
    }
  }

  lemma AddedFlows(f: Flow, list: seq<Elem>, cfg: Config)
    requires Flowing(f) && FlowGuard(f, Added(list), cfg)
    ensures Flowing(FlowNext(f, Added(list), cfg))
  {
    var before := f.consumer.tpl;
    var tpl := AddNew(before, ResetAll(list, cfg.reset));
    AddNewKeeps(before, ResetAll(list, cfg.reset));
    var added := tpl[|before|..];
    forall i | 0 <= i < |added|
      ensures Known(f.logs, added[i]) && Readable(added[i]) && PlaceOf(added[i]) !in f.starts
    {
      assert added[i] == tpl[|before| + i];
    }
    forall i, j | 0 <= i < j < |added| ensures PlaceOf(added[i]) != PlaceOf(added[j]) {
      assert added[i] == tpl[|before| + i] && added[j] == tpl[|before| + j];
    }
    assert Newcomers(f, added);
    assert before + added == tpl;
    NewcomersFlow(f, added);
  }

  lemma {:induction false} WithoutKeeps(tpl: seq<Elem>, list: seq<Elem>)
    ensures forall e :: e in Without(tpl, list) <==> e in tpl && !Assigned(list, PlaceOf(e))
    ensures Distinct(tpl) ==> Distinct(Without(tpl, list))
  {
    if tpl != [] {
      var n := |tpl| - 1;
      assert tpl == tpl[..n] + [tpl[n]];
      WithoutKeeps(tpl[..n], list);
      if Distinct(tpl) {
        var w := Without(tpl[..n], list);
        forall i | 0 <= i < |w| ensures PlaceOf(w[i]) != PlaceOf(tpl[n]) {
          assert w[i] in w;
          var j :| 0 <= j < n && tpl[j] == w[i];
        }
      }
    }
  }

  lemma FlowNextFlows(f: Flow, step: FlowStep, cfg: Config)
    requires Flowing(f) && FlowGuard(f, step, cfg)
    ensures Flowing(FlowNext(f, step, cfg))
  {
    match step
    case Produced(batch) => ProducedFlows(f, batch);
    case PolledOnce => PollFlows(f, cfg);
    case PollLost =>
    case Added(list) => AddedFlows(f, list, cfg);
    case Removed(list) =>
      WithoutKeeps(f.consumer.tpl, list);
      SameHanded(f, FlowNext(f, step, cfg));
  }

  /** A run; None once the environment breaks the guard. */
  function FlowRun(f: Flow, steps: seq<FlowStep>, cfg: Config): Option<Flow> {
    if steps == [] then Some(f)
    else
      match FlowRun(f, steps[..|steps| - 1], cfg)
      case None => None
      case Some(g) => if FlowGuard(g, steps[|steps| - 1], cfg) then Some(FlowNext(g, steps[|steps| - 1], cfg)) else None
  }

  lemma {:induction false} RunFlows(f: Flow, steps: seq<FlowStep>, cfg: Config)
    requires Flowing(f) && FlowRun(f, steps, cfg).Some?
    ensures Flowing(FlowRun(f, steps, cfg).value)
  {
    if steps != [] {
      RunFlows(f, steps[..|steps| - 1], cfg);
      FlowNextFlows(FlowRun(f, steps[..|steps| - 1], cfg).value, steps[|steps| - 1], cfg);
    }
  }

  /** A consumer with an empty buffer, freshly assigned or freshly sought. */
  function FreshFlow(b: Logs, c: Consumer): Flow {
    Flow(b, c, [], StartsOf(c.tpl))
  }

  lemma FreshFlows(b: Logs, c: Consumer)
    requires Dense(b) && c.buffer == [] && Distinct(c.tpl) && Fetchable(b, c.tpl)
    ensures Flowing(FreshFlow(b, c))
  {
    StartsOfExact(c.tpl);
    var f := FreshFlow(b, c);
    assert f.Handed() == [];
    forall place ensures PlaceOk(f, place) {}
    forall e | e in c.tpl ensures CursorOk(f, e) { assert Known(b, e); }
  }

  lemma {:induction false} StartsAssigned(tpl: seq<Elem>)
    ensures forall place :: place in StartsOf(tpl) ==> exists i :: 0 <= i < |tpl| && PlaceOf(tpl[i]) == place
  {
    if tpl != [] {
      var n := |tpl| - 1;
      StartsAssigned(tpl[..n]);
      forall place | place in StartsOf(tpl) ensures exists i :: 0 <= i < |tpl| && PlaceOf(tpl[i]) == place {
        if place in StartsOf(tpl[..n]) {
          var i :| 0 <= i < n && PlaceOf(tpl[..n][i]) == place;
          assert PlaceOf(tpl[i]) == place;
        } else {
          assert PlaceOf(tpl[n]) == place;
        }
      }
    }
  }

  /** Once started, a place keeps its start. */
  lemma StartKept(f: Flow, step: FlowStep, cfg: Config, place: Place)
    requires Flowing(f) && FlowGuard(f, step, cfg) && place in f.starts
    ensures var g := FlowNext(f, step, cfg); place in g.starts && g.starts[place] == f.starts[place]
  {
    if step.PolledOnce? {
      forall e | e in f.consumer.tpl && e.offset.End? ensures PlaceOf(e) != place { assert CursorOk(f, e); }
    } else if step.Added? {
      var list := ResetAll(step.list, cfg.reset);
      var tpl := AddNew(f.consumer.tpl, list);
      AddNewKeeps(f.consumer.tpl, list);
      var added := tpl[|f.consumer.tpl|..];
      forall i | 0 <= i < |added| ensures PlaceOf(added[i]) != place {
        assert added[i] == tpl[|f.consumer.tpl| + i];
      }
      StartsAssigned(added);
    }
  }

  lemma {:induction false} RunKeepsStart(f: Flow, steps: seq<FlowStep>, cfg: Config, place: Place)
    requires Flowing(f) && FlowRun(f, steps, cfg).Some? && place in f.starts
    ensures var g := FlowRun(f, steps, cfg).value; place in g.starts && g.starts[place] == f.starts[place]
  {
    if steps != [] {
      var n := |steps| - 1;
      RunKeepsStart(f, steps[..n], cfg, place);
      RunFlows(f, steps[..n], cfg);
      StartKept(FlowRun(f, steps[..n], cfg).value, steps[n], cfg, place);
    }
  }

  /** got is what lies in the log from one position up to another. */
  predicate Between(got: seq<Message>, log: seq<Message>, from: nat, to: nat) {
    from <= to && if from == to then got == [] else to <= |log| && got == log[from..to]
  }

  /** From a moment when e0 was assigned and nothing of its place had been given out: what was given
      out of it is a stretch of its log from the offset asked for, and reaches to its cursor if it is
      assigned now. */
  ghost predicate DeliversFrom(f: Flow, e0: Elem)
    requires Settled(e0)
  {
    var got := Of(f.delivered, PlaceOf(e0)) + Of(f.consumer.buffer, PlaceOf(e0));
    && Stretch(got, LogOf(f.logs, e0), Cursor(e0))
    && forall e :: e in f.consumer.tpl && PlaceOf(e) == PlaceOf(e0) ==>
         Settled(e) && Between(got, LogOf(f.logs, e0), Cursor(e0), Cursor(e))
  }

  lemma {:induction false} DeliversSince(f0: Flow, steps: seq<FlowStep>, cfg: Config, e0: Elem)
    requires Flowing(f0) && e0 in f0.consumer.tpl && Settled(e0)
    requires Of(f0.Handed(), PlaceOf(e0)) == [] && FlowRun(f0, steps, cfg).Some?
    ensures DeliversFrom(FlowRun(f0, steps, cfg).value, e0)
  {
    assert CursorOk(f0, e0);
    RunFlows(f0, steps, cfg);
    RunKeepsStart(f0, steps, cfg, PlaceOf(e0));
    var f := FlowRun(f0, steps, cfg).value;
    assert PlaceOk(f, PlaceOf(e0));
    OfConcat(f.delivered, f.consumer.buffer, PlaceOf(e0));
    forall e | e in f.consumer.tpl && PlaceOf(e) == PlaceOf(e0)
      ensures Settled(e)
      ensures Between(Of(f.Handed(), PlaceOf(e0)), LogOf(f.logs, e0), Cursor(e0), Cursor(e))
    {
      assert CursorOk(f, e);
    }
  }

  /** Gap-free and duplicate-free: in any run of producing, polling, lost polls, adding and removing
      partitions, the messages given out and then those buffered are, for every partition of the
      assignment, exactly its log from the offset it was assigned at up to its cursor. */
  lemma {:induction false} GapFree(b: Logs, c: Consumer, steps: seq<FlowStep>, cfg: Config, e0: Elem)
    requires Dense(b) && c.buffer == [] && Distinct(c.tpl) && Fetchable(b, c.tpl)
    requires FlowRun(FreshFlow(b, c), steps, cfg).Some? && e0 in c.tpl && Settled(e0)
    ensures DeliversFrom(FlowRun(FreshFlow(b, c), steps, cfg).value, e0)
  {
    FreshFlows(b, c);
    FlowingFetchable(FreshFlow(b, c));
    assert FreshFlow(b, c).Handed() == [];
    DeliversSince(FreshFlow(b, c), steps, cfg, e0);
  }

  lemma {:induction false} FlowSplit(f: Flow, x: seq<FlowStep>, y: seq<FlowStep>, cfg: Config)
    requires FlowRun(f, x + y, cfg).Some?
    ensures FlowRun(f, x, cfg).Some? && FlowRun(FlowRun(f, x, cfg).value, y, cfg) == FlowRun(f, x + y, cfg)
  {
    if y == [] {
      assert x + y == x;
    } else {
      assert (x + y)[..|x + y| - 1] == x + y[..|y| - 1];
      FlowSplit(f, x, y[..|y| - 1], cfg);
    }
  }

  /** The same of a partition added in the middle of a run: from the offset it was added at. */
  lemma {:induction false} GapFreeAdded(b: Logs, c: Consumer, before: seq<FlowStep>, list: seq<Elem>,
                                        after: seq<FlowStep>, cfg: Config, e0: Elem)
    requires Dense(b) && c.buffer == [] && Distinct(c.tpl) && Fetchable(b, c.tpl)
    requires FlowRun(FreshFlow(b, c), before + [Added(list)] + after, cfg).Some?
    requires FlowRun(FreshFlow(b, c), before, cfg).Some? ==>
      !Assigned(FlowRun(FreshFlow(b, c), before, cfg).value.consumer.tpl, PlaceOf(e0))
    requires e0 in ResetAll(list, cfg.reset) && Distinct(ResetAll(list, cfg.reset)) && Settled(e0)
    ensures DeliversFrom(FlowRun(FreshFlow(b, c), before + [Added(list)] + after, cfg).value, e0)
  {
    var f0 := FreshFlow(b, c);
    FreshFlows(b, c);
    FlowSplit(f0, before + [Added(list)], after, cfg);
    assert (before + [Added(list)])[..|before|] == before;
    RunFlows(f0, before, cfg);
    RunFlows(f0, before + [Added(list)], cfg);
    var f := FlowRun(f0, before, cfg).value;
    var g := FlowRun(f0, before + [Added(list)], cfg).value;
    assert PlaceOk(f, PlaceOf(e0)) && g.Handed() == f.Handed();
    AddNewAdds(f.consumer.tpl, ResetAll(list, cfg.reset), e0);
    DeliversSince(g, after, cfg, e0);
  }

  lemma {:induction false} AddNewAdds(tpl: seq<Elem>, list: seq<Elem>, e: Elem)
    requires Distinct(list) && !Assigned(tpl, PlaceOf(e))
    ensures e in list ==> e in AddNew(tpl, list)
    ensures (forall x :: x in list ==> PlaceOf(x) != PlaceOf(e)) ==> !Assigned(AddNew(tpl, list), PlaceOf(e))
  {
    if list != [] {
      var n := |list| - 1;
      assert list == list[..n] + [list[n]];
      AddNewAdds(tpl, list[..n], e);
    }
  }

  /** Of a partition whose `End` no fetch has settled yet, nothing was given out. */
  lemma {:induction false} NothingBeforeSettled(b: Logs, c: Consumer, steps: seq<FlowStep>, cfg: Config, e: Elem)
    requires Dense(b) && c.buffer == [] && Distinct(c.tpl) && Fetchable(b, c.tpl)
    requires FlowRun(FreshFlow(b, c), steps, cfg).Some?
    requires e in FlowRun(FreshFlow(b, c), steps, cfg).value.consumer.tpl
    ensures Readable(e) && (!Settled(e) ==> Of(FlowRun(FreshFlow(b, c), steps, cfg).value.Handed(), PlaceOf(e)) == [])
  {
    FreshFlows(b, c);
    RunFlows(FreshFlow(b, c), steps, cfg);
    var f := FlowRun(FreshFlow(b, c), steps, cfg).value;
    assert CursorOk(f, e) && PlaceOk(f, PlaceOf(e));
  }

  // ---- polling drains --------------------------------------------------------------------

  function Lag(b: Logs, e: Elem): nat
    requires Readable(e)
  {
    if StartOf(b, e) < |LogOf(b, e)| then |LogOf(b, e)| - StartOf(b, e) else 0
  }

  /** How many messages the elements from k on still have to fetch. */
  function Behind(b: Logs, tpl: seq<Elem>, k: nat): nat
    requires forall e :: e in tpl ==> Readable(e)
    requires k <= |tpl|
    decreases |tpl| - k
  {
    if k == |tpl| then 0 else assert tpl[k] in tpl; Lag(b, tpl[k]) + Behind(b, tpl, k + 1)
  }

  /** What was produced and not yet given out, as far as the assignment reaches. */
  function Pending(f: Flow): nat
    requires forall e :: e in f.consumer.tpl ==> Readable(e)
  {
    |f.consumer.buffer| + Behind(f.logs, f.consumer.tpl, 0)
  }

  lemma {:induction false} BehindAdvanced(b: Logs, tpl: seq<Elem>, tpl': seq<Elem>, takes: seq<seq<Message>>,
                                          lim: Limits, k: nat)
    requires Fetchable(b, tpl) && AllAdvanced(b, tpl, tpl', 0, takes, lim) && k <= |tpl|
    requires forall e :: e in tpl' ==> Readable(e)
    ensures Behind(b, tpl', k) + |Joined(takes[k..])| == Behind(b, tpl, k)
    decreases |tpl| - k
  {
    if k < |tpl| {
      BehindAdvanced(b, tpl, tpl', takes, lim, k + 1);
      assert takes[k..] == [takes[k]] + takes[k + 1..];
      JoinedCons(takes[k], takes[k + 1..]);
      assert tpl[k] in tpl && tpl'[k] in tpl' && takes[k - 0] == takes[k];
      assert Advanced(b, tpl[k], tpl'[k], takes[k - 0]);
    }
  }

  /** Every stored message of the assigned partitions fits both byte limits. */
  predicate AllFit(b: Logs, tpl: seq<Elem>, lim: Limits) {
    forall e, m :: e in tpl && m in LogOf(b, e) ==> !TooBig(m, lim)
  }

  lemma FitKept(b: Logs, tpl: seq<Elem>, tpl': seq<Elem>, takes: seq<seq<Message>>, lim: Limits)
    requires Fetchable(b, tpl) && AllAdvanced(b, tpl, tpl', 0, takes, lim) && AllFit(b, tpl, lim)
    ensures AllFit(b, tpl', lim)
  {
    forall e, m | e in tpl' && m in LogOf(b, e) ensures !TooBig(m, lim) {
      var j :| 0 <= j < |tpl| && tpl'[j] == e;
      assert tpl[j] in tpl && Advanced(b, tpl[j], tpl'[j], takes[j - 0]);
      assert LogOf(b, tpl[j]) == LogOf(b, e);
    }
  }

  lemma {:induction false} StuckIsDrained(b: Logs, tpl: seq<Elem>, k: nat, lim: Limits)
    requires Fetchable(b, tpl) && AllFit(b, tpl, lim) && k <= |tpl|
    ensures Stuck(b, tpl, k, lim) <==> Behind(b, tpl, k) == 0
    decreases |tpl| - k
  {
    if k < |tpl| {
      StuckIsDrained(b, tpl, k + 1, lim);
      assert tpl[k] in tpl;
      if StartOf(b, tpl[k]) < |LogOf(b, tpl[k])| {
        assert LogOf(b, tpl[k])[StartOf(b, tpl[k])] in LogOf(b, tpl[k]);
      }
    }
  }

  lemma FlowingReadable(f: Flow)
    requires Flowing(f)
    ensures forall e :: e in f.consumer.tpl ==> Readable(e)
  {
    FlowingFetchable(f);
  }

  /** A fetch comes back empty exactly when nothing is left to fetch, and otherwise what it hands out
      is no longer behind. */
  lemma {:induction false} FetchDrains(b: Logs, tpl: seq<Elem>, takes: seq<seq<Message>>, lim: Limits)
    requires Dense(b) && Fetchable(b, tpl) && AllFit(b, tpl, lim)
    requires HandsOut(b, tpl, 0, [], 0, lim, takes, Fetch(b, tpl, lim))
    requires forall e :: e in Fetch(b, tpl, lim).tpl ==> Readable(e)
    ensures var r := Fetch(b, tpl, lim);
      && Behind(b, r.tpl, 0) + |r.msgs| == Behind(b, tpl, 0) && (r.msgs == [] <==> Behind(b, tpl, 0) == 0)
      && AllFit(b, r.tpl, lim)
  {
    var r := Fetch(b, tpl, lim);
    BehindAdvanced(b, tpl, r.tpl, takes, lim, 0);
    assert takes[0..] == takes && [] + Joined(takes) == Joined(takes);
    EmptyIffStuck(b, tpl, 0, lim);
    StuckIsDrained(b, tpl, 0, lim);
    FitKept(b, tpl, r.tpl, takes, lim);
  }

  /** A fetch moves messages from the logs to the buffer, and moves some unless none are left. */
  lemma {:induction false} FetchProgress(f: Flow, cfg: Config)
    requires Flowing(f) && f.consumer.buffer == [] && AllFit(f.logs, f.consumer.tpl, cfg.limits)
    ensures Fetch(f.logs, f.consumer.tpl, cfg.limits).Fetched?
    ensures var r := Fetch(f.logs, f.consumer.tpl, cfg.limits); var g := AfterFetch(f, r);
      && Flowing(g)
      && (forall e :: e in f.consumer.tpl ==> Readable(e)) && (forall e :: e in r.tpl ==> Readable(e))
      && Pending(g) == Pending(f) && (r.msgs == [] <==> Pending(f) == 0)
      && AllFit(f.logs, r.tpl, cfg.limits)
  {
    var takes := FetchFlows(f, cfg);
    FlowingReadable(AfterFetch(f, Fetch(f.logs, f.consumer.tpl, cfg.limits)));
    FetchDrains(f.logs, f.consumer.tpl, takes, cfg.limits);
  }

  /** If every stored message fits, a poll gives out exactly one message while any is pending, and
      nothing only when every assigned partition is fully given out. */
  lemma {:induction false} PollProgress(f: Flow, cfg: Config)
    requires Flowing(f) && AllFit(f.logs, f.consumer.tpl, cfg.limits)
    ensures var o := Poll(f.logs, f.consumer, cfg); var g := FlowNext(f, PolledOnce, cfg);
      && (forall e :: e in f.consumer.tpl ==> Readable(e)) && (forall e :: e in g.consumer.tpl ==> Readable(e))
      && o.Polled? && Flowing(g) && g.logs == f.logs && AllFit(g.logs, g.consumer.tpl, cfg.limits)
      && (o.msg.Some? <==> Pending(f) > 0)
      && (o.msg.Some? ==> Pending(g) == Pending(f) - 1 && |g.delivered| == |f.delivered| + 1)
  {
    PollFlows(f, cfg);
    FlowingReadable(f);
    FlowingReadable(FlowNext(f, PolledOnce, cfg));
    if f.consumer.buffer == [] && f.consumer.tpl != [] {
      FetchProgress(f, cfg);
    }
  }

  function Polls(n: nat): seq<FlowStep> {
    seq(n, i requires 0 <= i < n => PolledOnce)
  }

  /** Polling as often as messages are pending gives out one message each time, and then every
      assigned partition is fully given out. */
  lemma {:induction false} PollingDrains(f: Flow, cfg: Config, n: nat)
    requires Flowing(f) && AllFit(f.logs, f.consumer.tpl, cfg.limits)
    requires (forall e :: e in f.consumer.tpl ==> Readable(e)) && n <= Pending(f)
    ensures FlowRun(f, Polls(n), cfg).Some?
    ensures var g := FlowRun(f, Polls(n), cfg).value;
      && Flowing(g) && g.logs == f.logs && AllFit(g.logs, g.consumer.tpl, cfg.limits)
      && (forall e :: e in g.consumer.tpl ==> Readable(e))
      && |g.delivered| == |f.delivered| + n && Pending(g) == Pending(f) - n
      && (n == Pending(f) ==> g.consumer.buffer == [] && forall e :: e in g.consumer.tpl ==>
           StartOf(g.logs, e) >= |LogOf(g.logs, e)|)
  {
    if n > 0 {
      PollingDrains(f, cfg, n - 1);
      assert Polls(n)[..n - 1] == Polls(n - 1);
      PollProgress(FlowRun(f, Polls(n - 1), cfg).value, cfg);
    }
    var g := FlowRun(f, Polls(n), cfg).value;
    if Pending(g) == 0 { NothingBehind(g.logs, g.consumer.tpl, 0); }
  }

  lemma {:induction false} NothingBehind(b: Logs, tpl: seq<Elem>, k: nat)
    requires (forall e :: e in tpl ==> Readable(e)) && k <= |tpl| && Behind(b, tpl, k) == 0
    ensures forall j :: k <= j < |tpl| ==> tpl[j] in tpl && StartOf(b, tpl[j]) >= |LogOf(b, tpl[j])|
    decreases |tpl| - k
  {
    if k < |tpl| { NothingBehind(b, tpl, k + 1); }
  }

  // ---- seeking ---------------------------------------------------------------------------

  lemma {:induction false} SeekToExact(tpl: seq<Elem>, list: seq<Elem>)
    requires forall e :: e in list ==> Assigned(tpl, PlaceOf(e))
    ensures forall i :: 0 <= i < |tpl| && !Assigned(list, PlaceOf(tpl[i])) ==> SeekTo(tpl, list)[i] == tpl[i]
    ensures Distinct(tpl) && Distinct(list) ==>
      forall e, i :: e in list && 0 <= i < |tpl| && PlaceOf(tpl[i]) == PlaceOf(e) ==>
        SeekTo(tpl, list)[i].offset == e.offset
  {
    if list != [] {
      var n := |list| - 1;
      assert list == list[..n] + [list[n]];
      assert list[n] in list;
      SeekToExact(tpl, list[..n]);
    }
  }

  /** A seek restarts delivery: named partitions from the positions asked for, the others from
      their old cursors, so that exactly what was buffered of the others is skipped. */
  lemma SeekRestarts(f: Flow, list: seq<Elem>)
    requires Flowing(f) && Distinct(list) && (forall e :: e in list ==> Seekable(f.consumer.tpl, e))
    ensures Seek(f.consumer, list).Some?
    ensures var c := Seek(f.consumer, list).value;
      && (forall e :: e in c.tpl ==> Readable(e)) && Flowing(FreshFlow(f.logs, c)) && |c.tpl| == |f.consumer.tpl|
      && forall i :: 0 <= i < |c.tpl| ==>
           && PlaceOf(c.tpl[i]) == PlaceOf(f.consumer.tpl[i])
           && (!Assigned(list, PlaceOf(c.tpl[i])) ==> c.tpl[i] == f.consumer.tpl[i])
           && (forall e :: e in list && PlaceOf(e) == PlaceOf(c.tpl[i]) ==> c.tpl[i] == e)
  {
    FlowingFetchable(f);
    SeekToExact(f.consumer.tpl, list);
    var before := f.consumer.tpl;
    var c := Seek(f.consumer, list).value;
    forall i | 0 <= i < |c.tpl|
      ensures (!Assigned(list, PlaceOf(c.tpl[i])) ==> c.tpl[i] == before[i])
      ensures forall e :: e in list && PlaceOf(e) == PlaceOf(c.tpl[i]) ==> c.tpl[i] == e
      ensures Known(f.logs, c.tpl[i]) && Readable(c.tpl[i])
    {
      assert before[i] in before && PlaceOf(c.tpl[i]) == PlaceOf(before[i]);
      if Assigned(list, PlaceOf(before[i])) { var e :| e in list && PlaceOf(e) == PlaceOf(before[i]); }
    }
    FreshFlows(f.logs, c);
  }

  /** Why delivery is counted from an empty buffer: a new assignment keeps the old buffer, so the
      next poll still gives out the old assignment's message. */
  lemma StaleAfterAssign(b: Logs, c: Consumer, list: seq<Elem>, cfg: Config)
    requires c.buffer != []
    ensures var o := Poll(b, Assign(c, list, cfg), cfg); o.Polled? && o.msg == Some(c.buffer[0])
  {
  }

  /** Partitions assigned without an offset under the `earliest` policy are delivered from zero. */
  lemma {:induction false} EarliestFromZero(b: Logs, c: Consumer, list: seq<Elem>, steps: seq<FlowStep>, cfg: Config,
                                            e: Elem)
    requires Dense(b) && c.buffer == [] && cfg.reset.Earliest? && Distinct(list) && e in list
    requires forall x :: x in list ==> Known(b, x) && x.offset.Invalid?
    requires FlowRun(FreshFlow(b, Assign(c, list, cfg)), steps, cfg).Some?
    ensures var e0 := e.(offset := Beginning);
      e0 in Assign(c, list, cfg).tpl && Settled(e0) && Cursor(e0) == 0
      && DeliversFrom(FlowRun(FreshFlow(b, Assign(c, list, cfg)), steps, cfg).value, e0)
  {
    var c' := Assign(c, list, cfg);
    forall i | 0 <= i < |list| ensures c'.tpl[i] == list[i].(offset := Beginning) && Known(b, c'.tpl[i]) {
      assert list[i] in list;
    }
    var i :| 0 <= i < |list| && list[i] == e;
    assert c'.tpl[i] in c'.tpl;
    GapFree(b, c', steps, cfg, c'.tpl[i]);
  }
}
