/** The ordered channel between two endpoints.  Each message carries the link state of the moment
    it was sent: an arrival time, or nothing if the link was down, in which case the receiver tests
    the link again with growing waits.  Times are in milliseconds; a link test that succeeds yields
    an arbitrary latency. */
module Channel {
  import opened ByteStrings

  type Payload = Bytes

  datatype Packet = Packet(value: Payload, state: Option<nat>)

  /** Where the receiver is suspended; `Finished` once the stream has ended. */
  datatype Receiver =
    | Idle
    | BackingOff(value: Payload, since: nat, wake: nat, backoff: nat, waits: seq<nat>)
    | Arriving(value: Payload, since: nat, arrival: nat, waits: seq<nat>)
    | Finished

  /** A message yielded: when it was taken up, when it was due, when it was yielded, and the waits
      between its link tests. */
  datatype Delivery = Delivery(value: Payload, since: nat, arrival: nat, at: nat, waits: seq<nat>)

  datatype State = State(now: nat, queue: seq<Packet>, senderGone: bool, receiverGone: bool, receiver: Receiver,
                         sent: seq<Payload>, out: seq<Delivery>)

  const Start := State(0, [], false, false, Idle, [], [])

  const MAX_BACKOFF := 10000

  function Arrival(now: nat, link: Option<nat>): Option<nat> {
    if link.Some? then Some(now + link.value) else None
  }

  function Next(backoff: nat): nat {
    if backoff * 2 < MAX_BACKOFF then backoff * 2 else MAX_BACKOFF
  }

  datatype ChannelStep =
    | Pass(millis: nat)                        // time passes
    | Send(value: Payload, link: Option<nat>)  // the sender tests the link and enqueues
    | Resume(link: Option<nat>)                // the receiver runs, with the answer a link test would give
    | DropSender
    | DropReceiver

  function ChannelNext(c: State, step: ChannelStep): State {
    match step
    case Pass(d) => c.(now := c.now + d)
    case Send(value, link) =>
      if c.senderGone || c.receiverGone then c
      else c.(queue := c.queue + [Packet(value, Arrival(c.now, link))], sent := c.sent + [value])
    case Resume(link) => if c.receiverGone then c else Resumed(c, link)
    case DropSender => c.(senderGone := true)
    case DropReceiver => c.(receiverGone := true)
  }

  /** The receiver runs up to its next suspension. */
  function Resumed(c: State, link: Option<nat>): State {
    match c.receiver
    case Idle =>
      if c.queue == [] then
        if c.senderGone then c.(receiver := Finished) else c
      else
        var p := c.queue[0];
        c.(queue := c.queue[1..],
           receiver := if p.state.Some? then Arriving(p.value, c.now, p.state.value, [])
                       else BackingOff(p.value, c.now, c.now + 1, Next(1), [1]))
    case BackingOff(value, since, wake, backoff, waits) =>
      if c.now < wake then c
      else if link.Some? then c.(receiver := Arriving(value, since, c.now + link.value, waits))
      else c.(receiver := BackingOff(value, since, c.now + backoff, Next(backoff), waits + [backoff]))
    case Arriving(value, since, arrival, waits) =>
      if c.now < arrival then c
      else c.(receiver := Idle, out := c.out + [Delivery(value, since, arrival, c.now, waits)])
    case Finished => c
  }

  function ChannelRun(steps: seq<ChannelStep>): State {
    if steps == [] then Start else ChannelNext(ChannelRun(steps[..|steps| - 1]), steps[|steps| - 1])
  }

  // ---- waits -----------------------------------------------------------------------------

  function Pow2(k: nat): nat {
    if k == 0 then 1 else 2 * Pow2(k - 1)
  }

  /** The k-th wait: 2^k milliseconds, at most ten seconds. */
  function Wait(k: nat): nat {
    if Pow2(k) < 10_000 then Pow2(k) else 10_000
  }

  predicate Doubling(waits: seq<nat>) {
    forall k :: 0 <= k < |waits| ==> waits[k] == Wait(k)
  }

  lemma WaitNext(k: nat)
    ensures Next(Wait(k)) == Wait(k + 1)
  {
  }

  function Sum(waits: seq<nat>): nat {
    if waits == [] then 0 else Sum(waits[..|waits| - 1]) + waits[|waits| - 1]
  }

  lemma SumMore(waits: seq<nat>, w: nat)
    ensures Sum(waits + [w]) == Sum(waits) + w
  {
    assert (waits + [w])[..|waits|] == waits;
  }

  // ---- the channel over whole runs -------------------------------------------------------

  function Values(out: seq<Delivery>): seq<Payload> {
    seq(|out|, i requires 0 <= i < |out| => out[i].value)
  }

  function Queued(queue: seq<Packet>): seq<Payload> {
    seq(|queue|, i requires 0 <= i < |queue| => queue[i].value)
  }

  function InHand(r: Receiver): seq<Payload> {
    if r.Idle? || r.Finished? then [] else [r.value]
  }

  predicate DeliveryOk(d: Delivery) {
    d.arrival <= d.at && Doubling(d.waits) && d.since + Sum(d.waits) <= d.at
  }

  predicate ReceiverOk(c: State) {
    match c.receiver
    case Idle => true
    case BackingOff(_, since, wake, backoff, waits) =>
      Doubling(waits) && backoff == Wait(|waits|) && since + Sum(waits) <= wake && since <= c.now
    case Arriving(_, since, arrival, waits) =>
      Doubling(waits) && (waits != [] ==> since + Sum(waits) <= arrival) && since <= c.now
    case Finished => c.queue == [] && c.senderGone
  }

  /** Yielded, in hand and queued messages are, in this order, exactly the sent ones; yields are
      timely and their times never go back; the stream ends only when nothing can be left. */
  predicate Ordered(c: State) {
    && Values(c.out) + InHand(c.receiver) + Queued(c.queue) == c.sent
    && (forall i :: 0 <= i < |c.out| ==> DeliveryOk(c.out[i]) && c.out[i].at <= c.now)
    && (forall i, j :: 0 <= i < j < |c.out| ==> c.out[i].at <= c.out[j].at)
    && ReceiverOk(c)
  }

  lemma TakeUpOrdered(c: State, link: Option<nat>)
    requires Ordered(c) && c.receiver.Idle? && c.queue != []
    ensures Ordered(Resumed(c, link))
  {
    assert Queued(c.queue) == [c.queue[0].value] + Queued(c.queue[1..]);
    assert Values(c.out) + [] + Queued(c.queue) == Values(c.out) + [c.queue[0].value] + Queued(c.queue[1..]);
    assert [1][..0] == [] && Sum([1]) == 1;
    WaitNext(0);
  }

  lemma YieldOrdered(c: State, link: Option<nat>)
    requires Ordered(c) && c.receiver.Arriving? && c.receiver.arrival <= c.now
    ensures Ordered(Resumed(c, link))
  {
    var r := c.receiver;
    var d := Delivery(r.value, r.since, r.arrival, c.now, r.waits);
    assert DeliveryOk(d);
    assert Values(c.out + [d]) == Values(c.out) + [r.value];
    assert Values(c.out + [d]) + [] + Queued(c.queue) == Values(c.out) + [r.value] + Queued(c.queue);
  }

  lemma DoublingMore(waits: seq<nat>)
    requires Doubling(waits)
    ensures Doubling(waits + [Wait(|waits|)])
  {
  }

  lemma RetryOk(c: State, link: Option<nat>)
    requires ReceiverOk(c) && c.receiver.BackingOff?
    ensures ReceiverOk(Resumed(c, link))
  {
    SumMore(c.receiver.waits, c.receiver.backoff);
    WaitNext(|c.receiver.waits|);
    DoublingMore(c.receiver.waits);
  }

  lemma RetryOrdered(c: State, link: Option<nat>)
    requires Ordered(c) && c.receiver.BackingOff?
    ensures Ordered(Resumed(c, link))
  {
    RetryOk(c, link);
    var c' := Resumed(c, link);
    assert c'.out == c.out && c'.queue == c.queue && InHand(c'.receiver) == InHand(c.receiver);
  }

  lemma ResumeOrdered(c: State, link: Option<nat>)
    requires Ordered(c)
    ensures Ordered(Resumed(c, link))
  {
    match c.receiver
    case Idle => if c.queue != [] { TakeUpOrdered(c, link); }
    case BackingOff(_, _, _, _, _) => RetryOrdered(c, link);
    case Arriving(_, _, arrival, _) => if c.now >= arrival { YieldOrdered(c, link); }
    case Finished =>
  }

  lemma {:induction false} RunOrdered(steps: seq<ChannelStep>)
    ensures Ordered(ChannelRun(steps))
  {
    if steps != [] {
      RunOrdered(steps[..|steps| - 1]);
      var c := ChannelRun(steps[..|steps| - 1]);
      match steps[|steps| - 1]
      case Send(value, link) =>
        var p := Packet(value, Arrival(c.now, link));
        assert Queued(c.queue + [p]) == Queued(c.queue) + [value];
      case Resume(link) => ResumeOrdered(c, link);
      case _ =>
    }
  }

  // ---- what the steps alone say ----------------------------------------------------------

  /** The time after some steps. */
  function Clock(steps: seq<ChannelStep>): nat {
    if steps == [] then 0
    else
      var last := steps[|steps| - 1];
      Clock(steps[..|steps| - 1]) + if last.Pass? then last.millis else 0
  }

  /** The packets of the sends made while both ends existed, each with the link's answer at its send
      added to the time of its send. */
  function SentPackets(steps: seq<ChannelStep>): seq<Packet> {
    if steps == [] then []
    else
      var init, last := steps[..|steps| - 1], steps[|steps| - 1];
      SentPackets(init) +
      if last.Send? && DropSender !in init && DropReceiver !in init
      then [Packet(last.value, if last.link.Some? then Some(Clock(init) + last.link.value) else None)] else []
  }

  /** The receiver ran at that time, finding the given answer if it tested the link. */
  ghost predicate RanAt(steps: seq<ChannelStep>, time: nat, link: Option<nat>) {
    exists k :: 0 <= k < |steps| && steps[k] == Resume(link) && Clock(steps[..k]) == time
  }

  ghost predicate Ran(steps: seq<ChannelStep>, time: nat) {
    exists link :: RanAt(steps, time, link)
  }

  /** The arrival is that of a link test the receiver made at the given time or later: its time plus
      the answer. */
  ghost predicate Answered(steps: seq<ChannelStep>, earliest: nat, arrival: nat) {
    exists l: nat :: earliest + l <= arrival && RanAt(steps, arrival - l, Some(l))
  }

  /** At the given time or later a link test of the receiver found the link down. */
  ghost predicate Refused(steps: seq<ChannelStep>, earliest: nat) {
    exists time: nat :: earliest <= time && RanAt(steps, time, None)
  }

  /** Every wait but the first follows a failed test at the end of the waits before it. */
  ghost predicate Retried(steps: seq<ChannelStep>, since: nat, waits: seq<nat>) {
    forall k :: 0 < k < |waits| ==> Refused(steps, since + Sum(waits[..k]))
  }

  lemma RanAtMore(steps: seq<ChannelStep>, step: ChannelStep, time: nat, link: Option<nat>)
    requires RanAt(steps, time, link) || (step == Resume(link) && time == Clock(steps))
    ensures RanAt(steps + [step], time, link)
  {
    var more := steps + [step];
    if RanAt(steps, time, link) {
      var k :| 0 <= k < |steps| && steps[k] == Resume(link) && Clock(steps[..k]) == time;
      assert more[k] == steps[k] && more[..k] == steps[..k];
    } else {
      assert more[|steps|] == step && more[..|steps|] == steps;
    }
  }

  lemma RanMore(steps: seq<ChannelStep>, step: ChannelStep, time: nat)
    requires Ran(steps, time) || (step.Resume? && time == Clock(steps))
    ensures Ran(steps + [step], time)
  {
    if Ran(steps, time) {
      var link :| RanAt(steps, time, link);
      RanAtMore(steps, step, time, link);
    } else {
      RanAtMore(steps, step, time, step.link);
    }
  }

  lemma AnsweredMore(steps: seq<ChannelStep>, step: ChannelStep, earliest: nat, arrival: nat)
    requires Answered(steps, earliest, arrival) ||
      (step.Resume? && step.link.Some? && earliest <= Clock(steps) && arrival == Clock(steps) + step.link.value)
    ensures Answered(steps + [step], earliest, arrival)
  {
    if Answered(steps, earliest, arrival) {
      var l: nat :| earliest + l <= arrival && RanAt(steps, arrival - l, Some(l));
      RanAtMore(steps, step, arrival - l, Some(l));
    } else {
      RanAtMore(steps, step, Clock(steps), step.link);
      assert RanAt(steps + [step], arrival - step.link.value, Some(step.link.value));
    }
  }

  lemma RetriedMore(steps: seq<ChannelStep>, step: ChannelStep, since: nat, waits: seq<nat>)
    requires Retried(steps, since, waits)
    ensures Retried(steps + [step], since, waits)
  {
    forall k | 0 < k < |waits| ensures Refused(steps + [step], since + Sum(waits[..k])) {
      assert Refused(steps, since + Sum(waits[..k]));
      var time: nat :| since + Sum(waits[..k]) <= time && RanAt(steps, time, None);
      RanAtMore(steps, step, time, None);
    }
  }

  /** A failed test at the end of the waits justifies one more. */
  lemma RetriedAgain(steps: seq<ChannelStep>, since: nat, waits: seq<nat>, wait: nat)
    requires Retried(steps, since, waits) && since + Sum(waits) <= Clock(steps)
    ensures Retried(steps + [Resume(None)], since, waits + [wait])
  {
    var more, longer := steps + [Resume(None)], waits + [wait];
    RetriedMore(steps, Resume(None), since, waits);
    RanAtMore(steps, Resume(None), Clock(steps), None);
    assert Refused(more, since + Sum(waits));
    forall k | 0 < k < |longer| ensures Refused(more, since + Sum(longer[..k])) {
      assert longer[..k] == waits[..k];
      if k == |waits| { assert waits[..k] == waits; }
    }
  }

  /** A message sent with the link up is due as its send said and was not waited for.  One sent with the
      link down was waited for: each further wait follows a test that failed, and it is due as a link
      test said that was made when the waits were over. */
  ghost predicate Due(steps: seq<ChannelStep>, stamp: Option<nat>, since: nat, arrival: nat, waits: seq<nat>) {
    if stamp.Some? then arrival == stamp.value && waits == []
    else waits != [] && Retried(steps, since, waits) && Answered(steps, since + Sum(waits), arrival)
  }

  lemma DueMore(steps: seq<ChannelStep>, step: ChannelStep, stamp: Option<nat>, since: nat, arrival: nat,
                waits: seq<nat>)
    requires Due(steps, stamp, since, arrival, waits)
    ensures Due(steps + [step], stamp, since, arrival, waits)
  {
    if stamp.None? {
      RetriedMore(steps, step, since, waits);
      AnsweredMore(steps, step, since + Sum(waits), arrival);
    }
  }

  ghost predicate DeliveryTied(steps: seq<ChannelStep>, p: Packet, d: Delivery) {
    d.value == p.value && Due(steps, p.state, d.since, d.arrival, d.waits) && Ran(steps, d.since) && Ran(steps, d.at)
  }

  ghost predicate ReceiverTied(steps: seq<ChannelStep>, r: Receiver, packets: seq<Packet>, n: nat) {
    match r
    case BackingOff(value, since, _, _, waits) =>
      && n < |packets| && value == packets[n].value && packets[n].state.None?
      && waits != [] && Retried(steps, since, waits) && Ran(steps, since)
    case Arriving(value, since, arrival, waits) =>
      && n < |packets| && value == packets[n].value
      && Due(steps, packets[n].state, since, arrival, waits) && Ran(steps, since)
    case _ => true
  }

  function Ahead(r: Receiver): nat {
    if r.Idle? || r.Finished? then 0 else 1
  }

  /** Yielded, in hand and queued add up to the packets, and the queued ones are the last of them. */
  predicate Counted(packets: seq<Packet>, c: State) {
    && |c.out| + Ahead(c.receiver) + |c.queue| == |packets|
    && packets[|c.out| + Ahead(c.receiver)..] == c.queue
  }

  ghost predicate DeliveriesTied(steps: seq<ChannelStep>, packets: seq<Packet>, out: seq<Delivery>)
    requires |out| <= |packets|
  {
    forall i :: 0 <= i < |out| ==> DeliveryTied(steps, packets[i], out[i])
  }

  /** The state after the steps, packet by packet. */
  ghost predicate Tied(steps: seq<ChannelStep>, c: State) {
    var packets := SentPackets(steps);
    && c.now == Clock(steps)
    && (c.senderGone <==> DropSender in steps) && (c.receiverGone <==> DropReceiver in steps)
    && Counted(packets, c)
    && ReceiverTied(steps, c.receiver, packets, |c.out|)
    && DeliveriesTied(steps, packets, c.out)
  }

  lemma DeliveryTiedMore(steps: seq<ChannelStep>, step: ChannelStep, p: Packet, d: Delivery)
    requires DeliveryTied(steps, p, d)
    ensures DeliveryTied(steps + [step], p, d)
  {
    RanMore(steps, step, d.since);
    RanMore(steps, step, d.at);
    DueMore(steps, step, p.state, d.since, d.arrival, d.waits);
  }

  lemma {:induction false} ReceiverTiedMore(steps: seq<ChannelStep>, step: ChannelStep, r: Receiver,
                                            packets: seq<Packet>, n: nat)
    requires ReceiverTied(steps, r, packets, n)
    ensures ReceiverTied(steps + [step], r, packets, n)
  {
    if r.BackingOff? || r.Arriving? {
      RanMore(steps, step, r.since);
      if r.Arriving? {
        DueMore(steps, step, packets[n].state, r.since, r.arrival, r.waits);
      } else {
        RetriedMore(steps, step, r.since, r.waits);
      }
    }
  }

  /** A step that does not run the receiver: what was tied stays tied, and a send adds its packet. */
  lemma {:induction false} OtherTied(steps: seq<ChannelStep>, step: ChannelStep, c: State)
    requires Tied(steps, c) && (step.Resume? ==> c.receiverGone)
    ensures Tied(steps + [step], ChannelNext(c, step))
  {
    var more := steps + [step];
    assert more[..|steps|] == steps;
    SentMore(steps, step, c);
    ReceiverTiedMore(steps, step, c.receiver, SentPackets(steps), |c.out|);
    DeliveriesTiedMore(steps, step, SentPackets(steps), c.out);
  }

  /** What such a step adds to the packets it adds to the queue. */
  lemma SentMore(steps: seq<ChannelStep>, step: ChannelStep, c: State)
    requires Tied(steps, c) && (step.Resume? ==> c.receiverGone)
    ensures SentPackets(steps) <= SentPackets(steps + [step])
    ensures Counted(SentPackets(steps + [step]), ChannelNext(c, step))
  {
    assert (steps + [step])[..|steps|] == steps;
    var packets, packets' := SentPackets(steps), SentPackets(steps + [step]);
    var n := |c.out| + Ahead(c.receiver);
    assert packets'[n..] == packets[n..] + packets'[|packets|..];
  }

  /** What a link test made when the waits are over comes to. */
  lemma TestTied(steps: seq<ChannelStep>, link: Option<nat>, c: State)
    requires Tied(steps, c) && ReceiverOk(c) && c.receiver.BackingOff? && c.receiver.wake <= c.now
    ensures var r := c.receiver; var more := steps + [Resume(link)];
      if link.Some? then Due(more, None, r.since, c.now + link.value, r.waits)
      else Retried(more, r.since, r.waits + [r.backoff])
  {
    var r := c.receiver;
    if link.Some? {
      RetriedMore(steps, Resume(link), r.since, r.waits);
      AnsweredMore(steps, Resume(link), r.since + Sum(r.waits), c.now + link.value);
    } else {
      RetriedAgain(steps, r.since, r.waits, r.backoff);
    }
  }

  /** The receiver's new suspension, tied to the same packets. */
  lemma {:induction false} ReceiverResumed(steps: seq<ChannelStep>, link: Option<nat>, c: State)
    requires Tied(steps, c) && ReceiverOk(c)
    ensures var c' := Resumed(c, link);
      && (|c'.out| == |c.out| ==> ReceiverTied(steps + [Resume(link)], c'.receiver, SentPackets(steps), |c.out|))
      && (|c'.out| != |c.out| ==> c'.receiver.Idle?)
  {
    var step, packets := Resume(link), SentPackets(steps);
    RanMore(steps, step, c.now);
    ReceiverTiedMore(steps, step, c.receiver, packets, |c.out|);
    if c.receiver.BackingOff? && c.receiver.wake <= c.now { TestTied(steps, link, c); }
    if c.receiver.Idle? && c.queue != [] { assert packets[|c.out|] == packets[|c.out|..][0] == c.queue[0]; }
  }

  lemma CountedResumed(packets: seq<Packet>, c: State, link: Option<nat>)
    requires Counted(packets, c)
    ensures Counted(packets, Resumed(c, link))
  {
    if c.receiver.Idle? && c.queue != [] {
      assert packets[|c.out| + 1..] == packets[|c.out|..][1..] == c.queue[1..];
    }
  }

  lemma {:induction false} DeliveriesTiedMore(steps: seq<ChannelStep>, step: ChannelStep, packets: seq<Packet>,
                                              out: seq<Delivery>)
    requires |out| <= |packets| && DeliveriesTied(steps, packets, out)
    ensures DeliveriesTied(steps + [step], packets, out)
  {
    forall i | 0 <= i < |out| ensures DeliveryTied(steps + [step], packets[i], out[i]) {
      DeliveryTiedMore(steps, step, packets[i], out[i]);
    }
  }

  lemma {:induction false} YieldTied(steps: seq<ChannelStep>, link: Option<nat>, c: State)
    requires Tied(steps, c) && c.receiver.Arriving?
    ensures var r := c.receiver;
      |c.out| < |SentPackets(steps)| &&
      DeliveryTied(steps + [Resume(link)], SentPackets(steps)[|c.out|],
                   Delivery(r.value, r.since, r.arrival, c.now, r.waits))
  {
    RanMore(steps, Resume(link), c.now);
    ReceiverTiedMore(steps, Resume(link), c.receiver, SentPackets(steps), |c.out|);
  }

  lemma {:induction false} DeliveriesResumed(steps: seq<ChannelStep>, link: Option<nat>, c: State)
    requires Tied(steps, c)
    ensures var c' := Resumed(c, link);
      |c'.out| <= |SentPackets(steps)| && DeliveriesTied(steps + [Resume(link)], SentPackets(steps), c'.out)
  {
    DeliveriesTiedMore(steps, Resume(link), SentPackets(steps), c.out);
    if c.receiver.Arriving? { YieldTied(steps, link, c); }
  }

  lemma {:induction false} ResumeTied(steps: seq<ChannelStep>, link: Option<nat>, c: State)
    requires Tied(steps, c) && ReceiverOk(c) && !c.receiverGone
    ensures Tied(steps + [Resume(link)], Resumed(c, link))
  {
    var more, packets := steps + [Resume(link)], SentPackets(steps);
    assert more[..|steps|] == steps;
    assert SentPackets(more) == packets;
    CountedResumed(packets, c, link);
    ReceiverResumed(steps, link, c);
    DeliveriesResumed(steps, link, c);
  }

  lemma {:induction false} RunTied(steps: seq<ChannelStep>)
    ensures Tied(steps, ChannelRun(steps))
  {
    if steps != [] {
      var init, last := steps[..|steps| - 1], steps[|steps| - 1];
      RunTied(init);
      RunOrdered(init);
      assert steps == init + [last];
      var c := ChannelRun(init);
      if last.Resume? && !c.receiverGone { ResumeTied(init, last.link, c); } else { OtherTied(init, last, c); }
    }
  }

  /** For any pattern of sends, link failures, scheduling and closing: message by message, the yielded
      sequence follows the packets sent; a message sent with the link up is due at its send time plus
      the link's answer and was not waited for; one sent with the link down was waited for as long as
      link tests failed, and is due at the time of a link test made after its waits plus its answer;
      nothing is yielded before it is due or before its waits are over; yield times never go back; and
      the k-th wait is min(2^k ms, 10 s). */
  lemma {:induction false} OrderedDelivery(steps: seq<ChannelStep>)
    ensures var out := ChannelRun(steps).out; var packets := SentPackets(steps);
      && |out| <= |packets|
      && (forall i :: 0 <= i < |out| ==> DeliveryTied(steps, packets[i], out[i]))
      && (forall i :: 0 <= i < |out| ==> out[i].arrival <= out[i].at && out[i].since + Sum(out[i].waits) <= out[i].at)
      && (forall i, j :: 0 <= i < j < |out| ==> out[i].at <= out[j].at)
      && (forall i, k :: 0 <= i < |out| && 0 <= k < |out[i].waits| ==> out[i].waits[k] == Wait(k))
  {
    RunOrdered(steps);
    RunTied(steps);
    var out := ChannelRun(steps).out;
    forall i | 0 <= i < |out| ensures DeliveryOk(out[i]) {}
  }

  lemma FinishedStays(c: State, step: ChannelStep)
    requires Ordered(c) && c.receiver.Finished?
    ensures ChannelNext(c, step).receiver.Finished? && ChannelNext(c, step).out == c.out
    ensures ChannelNext(c, step).sent == c.sent
  {
  }

  /** The stream ends only after the sender is gone and everything it sent has been yielded, ... */
  lemma StreamEnds(steps: seq<ChannelStep>)
    requires ChannelRun(steps).receiver.Finished?
    ensures DropSender in steps && |ChannelRun(steps).out| == |SentPackets(steps)|
  {
    RunOrdered(steps);
    RunTied(steps);
  }

  /** ... and then it has ended for good. */
  lemma {:induction false} StreamStaysEnded(steps: seq<ChannelStep>, later: seq<ChannelStep>)
    requires ChannelRun(steps).receiver.Finished?
    ensures var c := ChannelRun(steps + later);
      c.receiver.Finished? && c.out == ChannelRun(steps).out && c.sent == ChannelRun(steps).sent
  {
    if later == [] {
      assert steps + later == steps;
    } else {
      var front := steps + later[..|later| - 1];
      assert (steps + later)[..|steps + later| - 1] == front;
      StreamStaysEnded(steps, later[..|later| - 1]);
      RunOrdered(front);
      FinishedStays(ChannelRun(front), later[|later| - 1]);
    }
  }

  // ---- everything sent is yielded in the end ---------------------------------------------

  /** At most how often the receiver has yet to run. */
  function Left(c: State): nat {
    3 * |c.queue| + if c.receiver.BackingOff? then 2 else if c.receiver.Arriving? then 1 else 0
  }

  /** Nothing in the channel is to be waited for beyond that time. */
  predicate Within(c: State, time: nat) {
    && (c.receiver.BackingOff? ==> c.receiver.wake <= time && c.receiver.backoff <= MAX_BACKOFF)
    && (c.receiver.Arriving? ==> c.receiver.arrival <= time)
    && forall p :: p in c.queue && p.state.Some? ==> p.state.value <= time
  }

  /** The link never answered with more than d. */
  predicate Bounded(steps: seq<ChannelStep>, d: nat) {
    forall step :: step in steps && (step.Send? || step.Resume?) && step.link.Some? ==> step.link.value <= d
  }

  lemma WithinNext(c: State, step: ChannelStep, d: nat)
    requires Within(c, c.now + d) && MAX_BACKOFF <= d && Bounded([step], d)
    ensures Within(ChannelNext(c, step), ChannelNext(c, step).now + d)
  {
    assert step in [step];
    if step.Resume? && c.receiver.Idle? && c.queue != [] { assert c.queue[0] in c.queue; }
  }

  lemma {:induction false} RunWithin(steps: seq<ChannelStep>, d: nat)
    requires Bounded(steps, d) && MAX_BACKOFF <= d
    ensures Within(ChannelRun(steps), ChannelRun(steps).now + d)
  {
    if steps != [] {
      var init, last := steps[..|steps| - 1], steps[|steps| - 1];
      assert steps == init + [last];
      RunWithin(init, d);
      WithinNext(ChannelRun(init), last, d);
    }
  }

  /** Some time passes, and the receiver runs with the link up. */
  function Rounds(n: nat, d: nat, l: nat): seq<ChannelStep> {
    if n == 0 then [] else Rounds(n - 1, d, l) + [Pass(d), Resume(Some(l))]
  }

  lemma RunMore(steps: seq<ChannelStep>, step: ChannelStep)
    ensures ChannelRun(steps + [step]) == ChannelNext(ChannelRun(steps), step)
  {
    assert (steps + [step])[..|steps + [step]| - 1] == steps;
  }

  lemma RoundProgress(c: State, d: nat, l: nat)
    requires Ordered(c) && Within(c, c.now + d) && MAX_BACKOFF <= d && l <= d && !c.receiverGone
    ensures var c' := ChannelNext(ChannelNext(c, Pass(d)), Resume(Some(l)));
      && Within(c', c'.now + d) && !c'.receiverGone && c'.senderGone == c.senderGone
      && (Left(c) > 0 ==> Left(c') < Left(c))
      && (Left(c) == 0 ==> Left(c') == 0 && (c.senderGone ==> c'.receiver.Finished?))
  {
    WithinNext(c, Pass(d), d);
    var mid := ChannelNext(c, Pass(d));
    WithinNext(mid, Resume(Some(l)), d);
  }

  lemma {:induction false} RoundsProgress(steps: seq<ChannelStep>, n: nat, d: nat, l: nat)
    requires Within(ChannelRun(steps), ChannelRun(steps).now + d) && MAX_BACKOFF <= d && l <= d
    requires !ChannelRun(steps).receiverGone
    ensures var c, c' := ChannelRun(steps), ChannelRun(steps + Rounds(n, d, l));
      && Within(c', c'.now + d) && !c'.receiverGone && c'.senderGone == c.senderGone
      && Left(c') <= (if n < Left(c) then Left(c) - n else 0)
      && (Left(c) < n && c.senderGone ==> c'.receiver.Finished?)
  {
    if n == 0 {
      assert steps + Rounds(0, d, l) == steps;
    } else {
      RoundsProgress(steps, n - 1, d, l);
      var before := steps + Rounds(n - 1, d, l);
      assert steps + Rounds(n, d, l) == (before + [Pass(d)]) + [Resume(Some(l))];
      RunMore(before, Pass(d));
      RunMore(before + [Pass(d)], Resume(Some(l)));
      RunOrdered(before);
      RoundProgress(ChannelRun(before), d, l);
    }
  }

  /** Whatever happened before, retries included: once the link is up and stays up, and the receiver is still
      there, running it three times per message at long enough intervals yields everything sent, and once
      more ends the stream if the sender is gone. */
  lemma {:induction false} EverythingIsYielded(steps: seq<ChannelStep>, n: nat, d: nat, l: nat)
    requires DropReceiver !in steps && Bounded(steps, d) && MAX_BACKOFF <= d && l <= d
    requires 3 * |SentPackets(steps)| <= n
    ensures var out := ChannelRun(steps + Rounds(n, d, l)).out; var packets := SentPackets(steps);
      |out| == |packets| && forall i :: 0 <= i < |out| ==> out[i].value == packets[i].value
    ensures DropSender in steps && 3 * |SentPackets(steps)| < n ==>
      ChannelRun(steps + Rounds(n, d, l)).receiver.Finished?
  {
    var all := steps + Rounds(n, d, l);
    var c, c', packets := ChannelRun(steps), ChannelRun(all), SentPackets(steps);
    RunTied(steps);
    RunWithin(steps, d);
    RoundsProgress(steps, n, d, l);
    RunTied(all);
    RoundsSendNothing(steps, n, d, l);
    forall i | 0 <= i < |c'.out| ensures c'.out[i].value == packets[i].value {
      assert DeliveryTied(all, SentPackets(all)[i], c'.out[i]);
    }
  }

  lemma {:induction false} RoundsSendNothing(steps: seq<ChannelStep>, n: nat, d: nat, l: nat)
    ensures SentPackets(steps + Rounds(n, d, l)) == SentPackets(steps)
  {
    if n == 0 {
      assert steps + Rounds(0, d, l) == steps;
    } else {
      RoundsSendNothing(steps, n - 1, d, l);
      var before := steps + Rounds(n - 1, d, l);
      assert steps + Rounds(n, d, l) == (before + [Pass(d)]) + [Resume(Some(l))];
      SentSame(before, Pass(d));
      SentSame(before + [Pass(d)], Resume(Some(l)));
    }
  }

  lemma SentSame(steps: seq<ChannelStep>, step: ChannelStep)
    requires !step.Send?
    ensures SentPackets(steps + [step]) == SentPackets(steps)
  {
    assert (steps + [step])[..|steps|] == steps;
  }

  // ---- the receiver loop in its own form -------------------------------------------------

  /** The inner loop for one message: tests the link until it is up, waiting longer each time.
      `answers` are the link's answers in turn; running out of them means still waiting. */
  method AwaitLink(packet: Packet, answers: seq<Option<nat>>) returns (state: Option<nat>, waits: seq<nat>)
    ensures Doubling(waits) && |waits| <= |answers|
    ensures packet.state.Some? ==> state == packet.state && waits == []
    ensures packet.state.None? ==>
      && (forall k :: 0 <= k < |waits| - 1 ==> answers[k].None?)
      && (if waits == [] then state.None? && answers == []
          else state == answers[|waits| - 1] && (state.None? ==> |waits| == |answers|))
  {
    state := packet.state;
    waits := [];
    var backoff := 1;
    var i := 0;
    while state.None? && i < |answers|
      invariant 0 <= i <= |answers| && i == |waits|
      invariant Doubling(waits) && backoff == Wait(i)
      invariant packet.state.Some? ==> state == packet.state && i == 0
      invariant packet.state.None? ==> forall k :: 0 <= k < i - 1 ==> answers[k].None?
      invariant packet.state.None? ==> if i == 0 then state.None? else state == answers[i - 1]
    {
      waits := waits + [backoff];
      WaitNext(i);
      backoff := Next(backoff);
      state := answers[i];
      i := i + 1;
    }
  }

  /** The channel as an object: the sender pushes to the queue, the receiver drains it. */
  class OrderedChannel {
    var now: nat
    var queue: seq<Packet>
    var senderGone: bool
    var receiverGone: bool
    var receiver: Receiver
    ghost var sent: seq<Payload>
    var out: seq<Delivery>

    ghost function View(): State
      reads this
    {
      State(now, queue, senderGone, receiverGone, receiver, sent, out)
    }

    ghost predicate Valid()
      reads this
    {
      Ordered(View())
    }

    constructor ()
      ensures Valid() && View() == Start
    {
      now, queue, senderGone, receiverGone := 0, [], false, false;
      receiver, sent, out := Idle, [], [];
    }

    method Sleep(millis: nat)
      requires Valid()
      modifies this`now
      ensures Valid() && View() == ChannelNext(old(View()), Pass(millis))
    {
      now := now + millis;
    }

    method Close()
      requires Valid()
      modifies this`senderGone
      ensures Valid() && View() == ChannelNext(old(View()), DropSender)
    {
      senderGone := true;
    }

    method HangUp()
      requires Valid()
      modifies this`receiverGone
      ensures Valid() && View() == ChannelNext(old(View()), DropReceiver)
    {
      receiverGone := true;
    }

    /** Fails once the receiver is gone. */
    method Push(value: Payload, link: Option<nat>) returns (ok: bool)
      requires Valid() && !senderGone
      modifies this`queue, this`sent
      ensures Valid() && View() == ChannelNext(old(View()), Send(value, link))
      ensures ok == !receiverGone
    {
      var packet := Packet(value, Arrival(now, link));
      if receiverGone { return false; }
      assert Queued(queue + [packet]) == Queued(queue) + [value];
      queue := queue + [packet];
      sent := sent + [value];
      ok := true;
    }

    /** Runs the receiver up to its next suspension. */
    method Resume(link: Option<nat>)
      requires Valid() && !receiverGone
      modifies this
      ensures Valid() && View() == ChannelNext(old(View()), ChannelStep.Resume(link))
    {
      match receiver {
      case Idle =>
        if queue == [] {
          if senderGone { receiver := Finished; }
        } else {
          var packet := queue[0];
          queue := queue[1..];
          if packet.state.Some? {
            receiver := Arriving(packet.value, now, packet.state.value, []);
          } else {
            var backoff := 1;
            receiver := BackingOff(packet.value, now, now + backoff, Next(backoff), [backoff]);
          }
        }
      case BackingOff(value, since, wake, backoff, waits) =>
        if wake <= now {
          var state := Arrival(now, link);
          if state.Some? {
            receiver := Arriving(value, since, state.value, waits);
          } else {
            receiver := BackingOff(value, since, now + backoff, Next(backoff), waits + [backoff]);
          }
        }
      case Arriving(value, since, arrival, waits) =>
        if arrival <= now {
          out := out + [Delivery(value, since, arrival, now, waits)];
          receiver := Idle;
        }
      case Finished =>
      }
      assert View() == ChannelNext(old(View()), ChannelStep.Resume(link));
      ResumeOrdered(old(View()), link);
    }
  }
}
