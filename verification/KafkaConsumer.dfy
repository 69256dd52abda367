/** The consumer: an assignment with cursors and a buffer of fetched messages. */
module KafkaConsumer {
  import opened ByteStrings
  import opened KafkaBroker
  import opened KafkaFetch

  datatype ResetPolicy = Latest | Earliest | NoReset

  datatype Config = Config(reset: ResetPolicy, limits: Limits)

  datatype Consumer = Consumer(tpl: seq<Elem>, buffer: seq<Message>)

  type Place = (string, int)

  function PlaceOf(e: Elem): Place {
    (e.topic, e.partition)
  }

  predicate Assigned(tpl: seq<Elem>, place: Place) {
    exists e :: e in tpl && PlaceOf(e) == place
  }

  function ResetOffset(e: Elem, reset: ResetPolicy): Elem {
    if e.offset.Invalid? then
      match reset
      case Latest => e.(offset := End)
      case Earliest => e.(offset := Beginning)
      case NoReset => e
    else e
  }

  function ResetAll(list: seq<Elem>, reset: ResetPolicy): seq<Elem> {
    seq(|list|, i requires 0 <= i < |list| => ResetOffset(list[i], reset))
  }

  /** A new assignment replaces the old one; the buffer is kept. */
  function Assign(c: Consumer, list: seq<Elem>, cfg: Config): Consumer {
    c.(tpl := ResetAll(list, cfg.reset))
  }

  /** Adds the elements whose place is not assigned yet, first come first served. */
  function AddNew(tpl: seq<Elem>, list: seq<Elem>): seq<Elem> {
    if list == [] then tpl
    else
      var t := AddNew(tpl, list[..|list| - 1]);
      var e := list[|list| - 1];
      if Assigned(t, PlaceOf(e)) then t else t + [e]
  }

  function IncrementalAssign(c: Consumer, list: seq<Elem>, cfg: Config): Consumer {
    c.(tpl := AddNew(c.tpl, ResetAll(list, cfg.reset)))
  }

  function Without(tpl: seq<Elem>, list: seq<Elem>): seq<Elem> {
    if tpl == [] then []
    else
      var e := tpl[|tpl| - 1];
      Without(tpl[..|tpl| - 1], list) + if Assigned(list, PlaceOf(e)) then [] else [e]
  }

  function IncrementalUnassign(c: Consumer, list: seq<Elem>): Consumer {
    c.(tpl := Without(c.tpl, list))
  }

  /** The index the seek map holds for a place: the last one. */
  function IndexOf(tpl: seq<Elem>, place: Place): (i: nat)
    requires Assigned(tpl, place)
    ensures i < |tpl| && PlaceOf(tpl[i]) == place
  {
    if PlaceOf(tpl[|tpl| - 1]) == place then |tpl| - 1
    else
      assert tpl == tpl[..|tpl| - 1] + [tpl[|tpl| - 1]];
      IndexOf(tpl[..|tpl| - 1], place)
  }

  predicate Seekable(tpl: seq<Elem>, e: Elem) {
    !e.offset.Invalid? && !e.offset.Stored? && !e.offset.Tail? && Assigned(tpl, PlaceOf(e))
  }

  function SeekTo(tpl: seq<Elem>, list: seq<Elem>): (r: seq<Elem>)
    requires forall e :: e in list ==> Assigned(tpl, PlaceOf(e))
    ensures |r| == |tpl| && forall i :: 0 <= i < |tpl| ==> PlaceOf(r[i]) == PlaceOf(tpl[i])
  {
    if list == [] then tpl
    else
      assert list[|list| - 1] in list;
      var t := SeekTo(tpl, list[..|list| - 1]);
      var i := IndexOf(tpl, PlaceOf(list[|list| - 1]));
      t[i := t[i].(offset := list[|list| - 1].offset)]
  }

  /** All or nothing: one element that cannot be sought leaves the consumer as it was. */
  function Seek(c: Consumer, list: seq<Elem>): Option<Consumer> {
    if forall e :: e in list ==> Seekable(c.tpl, e) then Some(Consumer(SeekTo(c.tpl, list), [])) else None
  }

  datatype PollOutcome = Polled(consumer: Consumer, msg: Option<Message>) | PollFailed(error: FetchError) | PollPanic

  function Pop(c: Consumer): PollOutcome {
    if c.buffer == [] then Polled(c, None) else Polled(c.(buffer := c.buffer[1..]), Some(c.buffer[0]))
  }

  /** Fetches when the buffer is empty, then pops; a failed fetch changes nothing. */
  function Poll(b: Logs, c: Consumer, cfg: Config): PollOutcome {
    if c.buffer != [] || c.tpl == [] then Pop(c)
    else
      match Fetch(b, c.tpl, cfg.limits)
      case FetchFailed(error) => PollFailed(error)
      case FetchPanic => PollPanic
      case Fetched(msgs, tpl) => Pop(Consumer(tpl, msgs))
  }

  // ---- messages of one place -------------------------------------------------------------

  predicate From(m: Message, place: Place) {
    m.topic == place.0 && m.partition == place.1
  }

  function Of(msgs: seq<Message>, place: Place): seq<Message> {
    if msgs == [] then []
    else Of(msgs[..|msgs| - 1], place) + if From(msgs[|msgs| - 1], place) then [msgs[|msgs| - 1]] else []
  }

  lemma {:induction false} OfConcat(a: seq<Message>, b: seq<Message>, place: Place)
    ensures Of(a + b, place) == Of(a, place) + Of(b, place)
  {
    if b == [] {
      assert a + b == a;
    } else {
      assert (a + b)[..|a + b| - 1] == a + b[..|b| - 1];
      OfConcat(a, b[..|b| - 1], place);
    }
  }

  lemma {:induction false} OfUniform(msgs: seq<Message>, at: Place, place: Place)
    requires forall m :: m in msgs ==> From(m, at)
    ensures Of(msgs, place) == if at == place then msgs else []
  {
    if msgs != [] {
      assert msgs == msgs[..|msgs| - 1] + [msgs[|msgs| - 1]];
      OfUniform(msgs[..|msgs| - 1], at, place);
      assert From(msgs[|msgs| - 1], at);
    }
  }

  lemma DensePlaces(b: Logs, place: Place)
    requires Dense(b)
    ensures forall m :: m in Log(b, place.0, place.1) ==> From(m, place)
  {
    if GetPartition(b, place.0, place.1).Found? {
      assert DenseLog(b[place.0].partitions[place.1], place.0, place.1);
    }
  }

  lemma OfTaken(b: Logs, e: Elem, e': Elem, taken: seq<Message>, place: Place)
    requires Dense(b) && Readable(e) && Advanced(b, e, e', taken)
    ensures Of(taken, place) == if PlaceOf(e) == place then taken else []
  {
    DensePlaces(b, PlaceOf(e));
    forall m | m in taken ensures From(m, PlaceOf(e)) { assert m in LogOf(b, e); }
    OfUniform(taken, PlaceOf(e), place);
  }

  predicate Distinct(tpl: seq<Elem>) {
    forall i, j :: 0 <= i < j < |tpl| ==> PlaceOf(tpl[i]) != PlaceOf(tpl[j])
  }

  lemma OfCons(first: seq<Message>, takes: seq<seq<Message>>, k: nat, place: Place)
    requires k < |takes| && takes[k] == first
    ensures Of(Joined(takes[k..]), place) == Of(first, place) + Of(Joined(takes[k + 1..]), place)
  {
    assert takes[k..] == [first] + takes[k + 1..];
    JoinedCons(first, takes[k + 1..]);
    OfConcat(first, Joined(takes[k + 1..]), place);
  }

  lemma OfJoinedStep(b: Logs, tpl: seq<Elem>, tpl': seq<Elem>, takes: seq<seq<Message>>, lim: Limits, k: nat,
                     place: Place)
    requires Dense(b) && Fetchable(b, tpl) && AllAdvanced(b, tpl, tpl', 0, takes, lim) && k < |tpl|
    ensures Of(Joined(takes[k..]), place) ==
      (if PlaceOf(tpl[k]) == place then takes[k] else []) + Of(Joined(takes[k + 1..]), place)
  {
    OfCons(takes[k], takes, k, place);
    assert tpl[k] in tpl && Advanced(b, tpl[k], tpl'[k], takes[k - 0]);
    OfTaken(b, tpl[k], tpl'[k], takes[k], place);
  }

  /** Of what a fetch hands out, a place that is not assigned gets nothing, ... */
  lemma {:induction false} OfJoinedNone(b: Logs, tpl: seq<Elem>, tpl': seq<Elem>, takes: seq<seq<Message>>,
                                        lim: Limits, k: nat, place: Place)
    requires Dense(b) && Fetchable(b, tpl) && AllAdvanced(b, tpl, tpl', 0, takes, lim) && k <= |tpl|
    requires forall j :: k <= j < |tpl| ==> PlaceOf(tpl[j]) != place
    ensures Of(Joined(takes[k..]), place) == []
    decreases |tpl| - k
  {
    if k < |tpl| {
      OfJoinedNone(b, tpl, tpl', takes, lim, k + 1, place);
      OfJoinedStep(b, tpl, tpl', takes, lim, k, place);
    }
  }

  /** ... and an assigned one exactly what its own element took. */
  lemma {:induction false} OfJoined(b: Logs, tpl: seq<Elem>, tpl': seq<Elem>, takes: seq<seq<Message>>,
                                    lim: Limits, k: nat, j: nat)
    requires Dense(b) && Fetchable(b, tpl) && Distinct(tpl) && AllAdvanced(b, tpl, tpl', 0, takes, lim)
      && k <= j < |tpl|
    ensures Of(Joined(takes[k..]), PlaceOf(tpl[j])) == takes[j]
    decreases |tpl| - k
  {
    OfJoinedStep(b, tpl, tpl', takes, lim, k, PlaceOf(tpl[j]));
    if k < j {
      OfJoined(b, tpl, tpl', takes, lim, k + 1, j);
    } else {
      OfJoinedNone(b, tpl, tpl', takes, lim, k + 1, PlaceOf(tpl[j]));
    }
  }
}
