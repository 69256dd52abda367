/** The tag-matching mailbox of an endpoint.  Waiting receivers are one-shot channels that may have
    been abandoned; both vectors lose elements by swapping in the last one. */
module Mailbox {
  import opened ByteStrings

  datatype Message = Message(tag: nat, data: Bytes, source: string)

  /** A pending receive request: the tag and the receiver it answers to. */
  datatype Waiter = Waiter(tag: nat, id: nat)

  datatype Receiver = Receiver(tag: nat, open: bool, got: Option<Message>)

  datatype Box = Box(registered: seq<Waiter>, msgs: seq<Message>, receivers: seq<Receiver>)

  const EmptyBox := Box([], [], [])

  /** `Vec::swap_remove`: the last element takes the place of the removed one. */
  function SwapRemove<T>(s: seq<T>, i: nat): seq<T>
    requires i < |s|
  {
    var n := |s| - 1;
    if i == n then s[..n] else s[..n][i := s[n]]
  }

  predicate Registered(reg: seq<Waiter>, count: nat) {
    && (forall w :: w in reg ==> w.id < count)
    && (forall i, j :: 0 <= i < j < |reg| ==> reg[i].id != reg[j].id)
  }

  lemma SwapRemoved(reg: seq<Waiter>, i: nat, count: nat)
    requires i < |reg| && Registered(reg, count)
    ensures Registered(SwapRemove(reg, i), count)
    ensures forall w :: w in SwapRemove(reg, i) <==> w in reg && w.id != reg[i].id
    ensures forall j :: 0 <= j < i ==> SwapRemove(reg, i)[j] == reg[j]
  {
    var n := |reg| - 1;
    var r := SwapRemove(reg, i);
    forall j | 0 <= j < |r| ensures r[j] in reg && r[j].id != reg[i].id {
      assert r[j] == if j == i then reg[n] else reg[j];
    }
    forall w | w in reg && w.id != reg[i].id ensures w in r {
      var j :| 0 <= j < |reg| && reg[j] == w;
      assert if j == n then r[i] == w else r[j] == w;
    }
  }

  /** Where a delivered message went: to a receiver, or nowhere yet. */
  datatype Fate = Given(registered: seq<Waiter>, id: nat) | Unclaimed(registered: seq<Waiter>)

  /** The delivery loop from index i on. */
  function OfferFrom(reg: seq<Waiter>, i: nat, tag: nat, receivers: seq<Receiver>): Fate
    requires Registered(reg, |receivers|)
    decreases |reg| - i
  {
    if i >= |reg| then Unclaimed(reg)
    else if reg[i].tag != tag then OfferFrom(reg, i + 1, tag, receivers)
    else
      SwapRemoved(reg, i, |receivers|);
      assert reg[i] in reg;
      if receivers[reg[i].id].open then Given(SwapRemove(reg, i), reg[i].id)
      else OfferFrom(SwapRemove(reg, i), i, tag, receivers)
  }

  /** The loop examines every waiter it needs to: the message goes to an open receiver of its tag
      if there is one, otherwise every waiter of the tag is gone; no other waiter is lost. */
  lemma {:induction false} OfferExact(reg: seq<Waiter>, i: nat, tag: nat, receivers: seq<Receiver>)
    requires Registered(reg, |receivers|)
    requires forall j :: 0 <= j < i && j < |reg| ==> reg[j].tag != tag
    ensures var f := OfferFrom(reg, i, tag, receivers);
      && Registered(f.registered, |receivers|)
      && (forall w :: w in f.registered ==> w in reg)
      && (f.Given? <==> exists w :: w in reg && w.tag == tag && receivers[w.id].open)
      && (f.Given? ==> (exists w :: w in reg && w.id == f.id && w.tag == tag && receivers[w.id].open)
                       && forall w :: w in f.registered ==> w.id != f.id)
      && (f.Unclaimed? ==> forall w :: w in f.registered ==> w.tag != tag)
      && (forall w :: w in reg && (w.tag != tag || receivers[w.id].open) && !(f.Given? && w.id == f.id) ==>
           w in f.registered)
    decreases |reg| - i
  {
    if i < |reg| {
      assert reg[i] in reg;
      if reg[i].tag != tag {
        OfferExact(reg, i + 1, tag, receivers);
      } else {
        SwapRemoved(reg, i, |receivers|);
        if !receivers[reg[i].id].open {
          OfferExact(SwapRemove(reg, i), i, tag, receivers);
        }
      }
    }
  }

  // ---- steps and runs --------------------------------------------------------------------

  /** `Iterator::position`: the first stored message of the tag, or the length. */
  function PositionFrom(msgs: seq<Message>, tag: nat, i: nat): (r: nat)
    requires i <= |msgs|
    ensures i <= r <= |msgs| && (r < |msgs| ==> msgs[r].tag == tag) && forall j :: i <= j < r ==> msgs[j].tag != tag
    decreases |msgs| - i
  {
    if i == |msgs| || msgs[i].tag == tag then i else PositionFrom(msgs, tag, i + 1)
  }

  function Deliver(b: Box, m: Message): Box
    requires Registered(b.registered, |b.receivers|)
  {
    var f := OfferFrom(b.registered, 0, m.tag, b.receivers);
    OfferExact(b.registered, 0, m.tag, b.receivers);
    if f.Given? then Box(f.registered, b.msgs, b.receivers[f.id := b.receivers[f.id].(got := Some(m))])
    else Box(f.registered, b.msgs + [m], b.receivers)
  }

  /** A new receiver, served at once from the store or registered as waiting. */
  function Receive(b: Box, tag: nat): Box {
    var i := PositionFrom(b.msgs, tag, 0);
    if i < |b.msgs| then Box(b.registered, SwapRemove(b.msgs, i), b.receivers + [Receiver(tag, true, Some(b.msgs[i]))])
    else Box(b.registered + [Waiter(tag, |b.receivers|)], b.msgs, b.receivers + [Receiver(tag, true, None)])
  }

  function Abandon(b: Box, id: nat): Box {
    if id < |b.receivers| then b.(receivers := b.receivers[id := b.receivers[id].(open := false)]) else b
  }

  predicate WaiterOk(b: Box, w: Waiter) {
    w.id < |b.receivers| && b.receivers[w.id].tag == w.tag && b.receivers[w.id].got.None?
  }

  /** Waiters are unserved; no tag is both waiting and stored; a receiver holds only its own tag;
      and a receiver that is still wanted and unserved is registered. */
  ghost predicate BoxOk(b: Box) {
    && Registered(b.registered, |b.receivers|)
    && (forall w :: w in b.registered ==> WaiterOk(b, w))
    && (forall w, m :: w in b.registered && m in b.msgs ==> w.tag != m.tag)
    && (forall id :: 0 <= id < |b.receivers| && b.receivers[id].got.Some? ==>
         b.receivers[id].got.value.tag == b.receivers[id].tag)
    && (forall id :: 0 <= id < |b.receivers| && b.receivers[id].open && b.receivers[id].got.None? ==>
          Waiter(b.receivers[id].tag, id) in b.registered)
  }

  lemma DeliverOk(b: Box, m: Message)
    requires BoxOk(b)
    ensures BoxOk(Deliver(b, m))
  {
    OfferExact(b.registered, 0, m.tag, b.receivers);
    var f := OfferFrom(b.registered, 0, m.tag, b.receivers);
    forall w | w in f.registered ensures w in b.registered && WaiterOk(Deliver(b, m), w) { assert WaiterOk(b, w); }
    if f.Given? {
      var w :| w in b.registered && w.id == f.id && w.tag == m.tag && b.receivers[w.id].open;
      assert WaiterOk(b, w);
    }
  }

  lemma ReceiveOk(b: Box, tag: nat)
    requires BoxOk(b)
    ensures BoxOk(Receive(b, tag))
  {
    var i := PositionFrom(b.msgs, tag, 0);
    var b' := Receive(b, tag);
    forall w | w in b.registered ensures WaiterOk(b', w) { assert WaiterOk(b, w); }
    if i < |b.msgs| {
      forall m | m in b'.msgs ensures m in b.msgs { var j :| 0 <= j < |b'.msgs| && b'.msgs[j] == m; }
    }
  }

  lemma AbandonOk(b: Box, id: nat)
    requires BoxOk(b)
    ensures BoxOk(Abandon(b, id))
  {
    forall w | w in b.registered ensures WaiterOk(Abandon(b, id), w) { assert WaiterOk(b, w); }
  }

  datatype BoxStep = Delivered(msg: Message) | Received(tag: nat) | Abandoned(id: nat)

  function BoxNext(b: Box, step: BoxStep): Box
    requires Registered(b.registered, |b.receivers|)
  {
    match step
    case Delivered(m) => Deliver(b, m)
    case Received(tag) => Receive(b, tag)
    case Abandoned(id) => Abandon(b, id)
  }

  ghost function BoxRun(steps: seq<BoxStep>): (b: Box)
    ensures BoxOk(b)
  {
    if steps == [] then EmptyBox
    else
      var b := BoxRun(steps[..|steps| - 1]);
      var step := steps[|steps| - 1];
      BoxNextOk(b, step);
      BoxNext(b, step)
  }

  lemma BoxNextOk(b: Box, step: BoxStep)
    requires BoxOk(b)
    ensures BoxOk(BoxNext(b, step))
  {
    match step
    case Delivered(m) => DeliverOk(b, m);
    case Received(tag) => ReceiveOk(b, tag);
    case Abandoned(id) => AbandonOk(b, id);
  }

  /** The messages the receivers hold. */
  function Held(receivers: seq<Receiver>): multiset<Message> {
    if receivers == [] then multiset{}
    else
      var r := receivers[|receivers| - 1];
      Held(receivers[..|receivers| - 1]) + if r.got.Some? then multiset{r.got.value} else multiset{}
  }

  lemma {:induction false} HeldUpdate(receivers: seq<Receiver>, id: nat, r: Receiver)
    requires id < |receivers| && receivers[id].got.None?
    ensures Held(receivers[id := r]) == Held(receivers) + if r.got.Some? then multiset{r.got.value} else multiset{}
  {
    var n := |receivers| - 1;
    if id < n {
      assert receivers[id := r][..n] == receivers[..n][id := r];
      HeldUpdate(receivers[..n], id, r);
    } else {
      assert receivers[id := r][..n] == receivers[..n];
    }
  }

  lemma {:induction false} HeldSame(a: seq<Receiver>, b: seq<Receiver>)
    requires |a| == |b| && forall i :: 0 <= i < |a| ==> a[i].got == b[i].got
    ensures Held(a) == Held(b)
  {
    if a != [] { HeldSame(a[..|a| - 1], b[..|b| - 1]); }
  }

  lemma SwapRemoveMultiset(msgs: seq<Message>, i: nat)
    requires i < |msgs|
    ensures multiset(SwapRemove(msgs, i)) + multiset{msgs[i]} == multiset(msgs)
  {
    var n := |msgs| - 1;
    assert msgs == msgs[..n] + [msgs[n]];
  }

  /** What a step adds to the messages delivered so far. */
  function Arrival(step: BoxStep): multiset<Message> {
    if step.Delivered? then multiset{step.msg} else multiset{}
  }

  lemma DeliverConserves(b: Box, m: Message)
    requires BoxOk(b)
    ensures var b' := Deliver(b, m);
      multiset(b'.msgs) + Held(b'.receivers) == multiset(b.msgs) + Held(b.receivers) + multiset{m}
  {
    OfferExact(b.registered, 0, m.tag, b.receivers);
    var f := OfferFrom(b.registered, 0, m.tag, b.receivers);
    if f.Given? {
      var w :| w in b.registered && w.id == f.id && w.tag == m.tag && b.receivers[w.id].open;
      assert WaiterOk(b, w);
      HeldUpdate(b.receivers, f.id, b.receivers[f.id].(got := Some(m)));
    }
  }

  lemma ReceiveConserves(b: Box, tag: nat)
    ensures var b' := Receive(b, tag); multiset(b'.msgs) + Held(b'.receivers) == multiset(b.msgs) + Held(b.receivers)
  {
    var i := PositionFrom(b.msgs, tag, 0);
    var r := Receiver(tag, true, if i < |b.msgs| then Some(b.msgs[i]) else None);
    assert (b.receivers + [r])[..|b.receivers|] == b.receivers;
    if i < |b.msgs| { SwapRemoveMultiset(b.msgs, i); }
  }

  lemma StepConserves(b: Box, step: BoxStep)
    requires BoxOk(b)
    ensures var b' := BoxNext(b, step);
      multiset(b'.msgs) + Held(b'.receivers) == multiset(b.msgs) + Held(b.receivers) + Arrival(step)
  {
    match step
    case Delivered(m) => DeliverConserves(b, m);
    case Received(tag) => ReceiveConserves(b, tag);
    case Abandoned(id) => HeldSame(b.receivers, Abandon(b, id).receivers);
  }

  function Arrivals(steps: seq<BoxStep>): multiset<Message> {
    if steps == [] then multiset{} else Arrivals(steps[..|steps| - 1]) + Arrival(steps[|steps| - 1])
  }

  /** After any run, abandoned receivers included, every delivered message is in exactly one place:
      held by one receiver, of its own tag, or in the store; and no tag is both waiting and
      stored. */
  lemma {:induction false} NothingLost(steps: seq<BoxStep>)
    ensures BoxOk(BoxRun(steps))
    ensures multiset(BoxRun(steps).msgs) + Held(BoxRun(steps).receivers) == Arrivals(steps)
  {
    if steps != [] {
      NothingLost(steps[..|steps| - 1]);
      StepConserves(BoxRun(steps[..|steps| - 1]), steps[|steps| - 1]);
    }
  }

  /** What a receiver has does not change unless it is wanted and has nothing yet. */
  lemma {:induction false} ClosedKeeps(b: Box, step: BoxStep, id: nat)
    requires BoxOk(b) && id < |b.receivers| && !b.receivers[id].open
    ensures var b' := BoxNext(b, step); id < |b'.receivers| && b'.receivers[id] == b.receivers[id]
  {
    if step.Delivered? { OfferExact(b.registered, 0, step.msg.tag, b.receivers); }
  }

  lemma BoxRunMore(steps: seq<BoxStep>, step: BoxStep)
    ensures BoxRun(steps + [step]) == BoxNext(BoxRun(steps), step)
  {
    assert (steps + [step])[..|steps + [step]| - 1] == steps;
  }

  /** The receiver has been abandoned, with what it had got by then. */
  ghost predicate ClosedWith(steps: seq<BoxStep>, id: nat, r: Receiver) {
    var b := BoxRun(steps);
    id < |b.receivers| && b.receivers[id] == r && !r.open
  }

  lemma {:induction false} StaysClosed(steps: seq<BoxStep>, later: seq<BoxStep>, id: nat, r: Receiver)
    requires ClosedWith(steps, id, r)
    ensures ClosedWith(steps + later, id, r)
  {
    if later == [] {
      assert steps + later == steps;
    } else {
      var front, last := steps + later[..|later| - 1], later[|later| - 1];
      StaysClosed(steps, later[..|later| - 1], id, r);
      assert steps + later == front + [last];
      ClosedMore(front, last, id, r);
    }
  }

  lemma ClosedMore(steps: seq<BoxStep>, step: BoxStep, id: nat, r: Receiver)
    requires ClosedWith(steps, id, r)
    ensures ClosedWith(steps + [step], id, r)
  {
    BoxRunMore(steps, step);
    ClosedKeeps(BoxRun(steps), step, id);
  }

  /** An abandoned receiver gets nothing any more, whatever is delivered later. */
  lemma {:induction false} AbandonedGetsNothing(steps: seq<BoxStep>, id: nat, later: seq<BoxStep>)
    requires id < |BoxRun(steps).receivers|
    ensures var b := BoxRun(steps + [Abandoned(id)] + later);
      id < |b.receivers| && b.receivers[id].got == BoxRun(steps).receivers[id].got && !b.receivers[id].open
  {
    BoxRunMore(steps, Abandoned(id));
    StaysClosed(steps + [Abandoned(id)], later, id, BoxRun(steps).receivers[id].(open := false));
  }

  // ---- order in a vector that loses elements by swapping ---------------------------------

  /** The elements that count, in their order. */
  function Only<T>(s: seq<T>, p: T -> bool): seq<T> {
    if s == [] then []
    else
      var last := s[|s| - 1];
      Only(s[..|s| - 1], p) + if p(last) then [last] else []
  }

  lemma {:induction false} OnlyConcat<T>(a: seq<T>, b: seq<T>, p: T -> bool)
    ensures Only(a + b, p) == Only(a, p) + Only(b, p)
  {
    if b == [] {
      assert a + b == a;
    } else {
      assert (a + b)[..|a + b| - 1] == a + b[..|b| - 1];
      OnlyConcat(a, b[..|b| - 1], p);
    }
  }

  lemma OnlyOne<T>(x: T, p: T -> bool)
    ensures Only([x], p) == if p(x) then [x] else []
  {
    assert [x][..0] == [];
  }

  lemma {:induction false} OnlyNone<T>(s: seq<T>, p: T -> bool)
    requires forall j :: 0 <= j < |s| ==> !p(s[j])
    ensures Only(s, p) == []
  {
    if s != [] { OnlyNone(s[..|s| - 1], p); }
  }

  lemma {:induction false} OnlyUniform<T>(s: seq<T>, p: T -> bool, y: T)
    ensures (forall k :: 0 <= k < |Only(s, p)| ==> Only(s, p)[k] == y) <==>
            (forall j :: 0 <= j < |s| && p(s[j]) ==> s[j] == y)
  {
    if s != [] {
      var init, last := s[..|s| - 1], s[|s| - 1];
      OnlyUniform(init, p, y);
      var found, before := Only(s, p), Only(init, p);
      assert forall k :: 0 <= k < |before| ==> found[k] == before[k];
      assert forall j :: 0 <= j < |init| ==> init[j] == s[j];
      if p(last) { assert found[|before|] == last; }
    }
  }

  lemma {:induction false} RotatedAt<T>(y: T, s: seq<T>, k: nat)
    requires [y] + s == s + [y] && k < |s|
    ensures s[k] == y
  {
    assert s[k] == (s + [y])[k] == ([y] + s)[k];
    if k > 0 { RotatedAt(y, s, k - 1); }
  }

  /** A sequence is the same with y in front as with y behind only if it consists of y. */
  lemma RotateIff<T>(y: T, s: seq<T>)
    ensures [y] + s == s + [y] <==> forall k :: 0 <= k < |s| ==> s[k] == y
  {
    if [y] + s == s + [y] {
      forall k | 0 <= k < |s| ensures s[k] == y { RotatedAt(y, s, k); }
    }
  }

  /** Moving the last element to index i passes no other element that counts. */
  ghost predicate NonePassed<T>(s: seq<T>, i: nat, p: T -> bool)
    requires i < |s|
  {
    var last := |s| - 1;
    i == last || !p(s[last]) || forall j :: i < j < last && p(s[j]) ==> s[j] == s[last]
  }

  /** Swapping the last element into the place of another moves it before the rest. */
  lemma SwapOnly<T>(front: seq<T>, x: T, middle: seq<T>, last: T, p: T -> bool)
    ensures Only(front + [x] + middle + [last], p) == Only(front, p) + Only([x], p) + Only(middle, p) + Only([last], p)
    ensures Only(front + [last] + middle, p) == Only(front, p) + Only([last], p) + Only(middle, p)
  {
    OnlyConcat(front, [x], p);
    OnlyConcat(front + [x], middle, p);
    OnlyConcat(front + [x] + middle, [last], p);
    OnlyConcat(front, [last], p);
    OnlyConcat(front + [last], middle, p);
  }

  lemma MiddleIff<T>(s: seq<T>, i: nat, p: T -> bool)
    requires i < |s| - 1 && p(s[|s| - 1])
    ensures var n := |s| - 1; var middle := Only(s[i + 1..n], p);
      NonePassed(s, i, p) <==> [s[n]] + middle == middle + [s[n]]
  {
    var n := |s| - 1;
    var middle := s[i + 1..n];
    RotateIff(s[n], Only(middle, p));
    OnlyUniform(middle, p, s[n]);
    assert forall j :: i < j < n ==> middle[j - i - 1] == s[j];
    assert forall k :: 0 <= k < |middle| ==> middle[k] == s[i + 1 + k];
  }

  lemma FrontCancels<T>(f: seq<T>, x: seq<T>, y: seq<T>)
    ensures f + x == f + y <==> x == y
  {
    assert (f + x)[|f|..] == x && (f + y)[|f|..] == y;
  }

  lemma SwapParts<T>(s: seq<T>, i: nat)
    requires i < |s| - 1
    ensures var n := |s| - 1; var front, middle, last := s[..i], s[i + 1..n], s[n];
      && s == front + [s[i]] + middle + [last]
      && SwapRemove(s, i) == front + [last] + middle && s[i + 1..] == middle + [last]
  {
  }

  lemma MovedIff<T>(s: seq<T>, i: nat, p: T -> bool, f: seq<T>, middle: seq<T>)
    requires i < |s| - 1 && middle == Only(s[i + 1..|s| - 1], p)
    ensures var x := Only([s[|s| - 1]], p); f + x + middle == f + (middle + x) <==> NonePassed(s, i, p)
  {
    var last := s[|s| - 1];
    OnlyOne(last, p);
    if p(last) {
      MiddleIff(s, i, p);
      assert f + [last] + middle == f + ([last] + middle);
      FrontCancels(f, [last] + middle, middle + [last]);
    } else {
      assert f + [] + middle == f + (middle + []);
    }
  }

  /** A swap-removal keeps the order of the elements that count, the removed one aside, if and only if
      the element swapped in passes no other one that counts. */
  lemma SwapKeepsIff<T>(s: seq<T>, i: nat, p: T -> bool)
    requires i < |s|
    ensures Only(SwapRemove(s, i), p) == Only(s[..i], p) + Only(s[i + 1..], p) <==> NonePassed(s, i, p)
  {
    if i == |s| - 1 {
      assert s[i + 1..] == [];
      assert Only(s[..i], p) + [] == Only(s[..i], p);
    } else {
      var front, middle, last := s[..i], s[i + 1..|s| - 1], s[|s| - 1];
      SwapParts(s, i);
      SwapOnly(front, s[i], middle, last, p);
      OnlyConcat(middle, [last], p);
      MovedIff(s, i, p, Only(front, p), Only(middle, p));
    }
  }

  /** The elements that count around index i. */
  lemma OnlyAround<T>(s: seq<T>, i: nat, p: T -> bool)
    requires i < |s|
    ensures Only(s, p) == Only(s[..i], p) + (if p(s[i]) then [s[i]] else []) + Only(s[i + 1..], p)
  {
    OnlyParts(s[..i], s[i], s[i + 1..], p);
    Parted(s, i);
  }

  lemma Parted<T>(s: seq<T>, i: nat)
    requires i < |s|
    ensures s == s[..i] + [s[i]] + s[i + 1..]
  {
  }

  lemma OnlyParts<T>(front: seq<T>, x: T, rest: seq<T>, p: T -> bool)
    ensures Only(front + [x] + rest, p) == Only(front, p) + (if p(x) then [x] else []) + Only(rest, p)
  {
    OnlyConcat(front + [x], rest, p);
    OnlyConcat(front, [x], p);
    OnlyOne(x, p);
  }

  // ---- the order of stored messages ------------------------------------------------------

  function MessageOf(tag: nat): Message -> bool {
    (m: Message) => m.tag == tag
  }

  /** The messages of one tag, in the order they are stored. */
  function OnTag(msgs: seq<Message>, tag: nat): seq<Message> {
    Only(msgs, MessageOf(tag))
  }

  /** What a tag's messages should be once the one at index i is served. */
  lemma OthersAround(msgs: seq<Message>, i: nat, tag: nat)
    requires i < |msgs| && (msgs[i].tag == tag ==> forall j :: 0 <= j < i ==> msgs[j].tag != tag)
    ensures var before := OnTag(msgs, tag); var rest := OnTag(msgs[..i], tag) + OnTag(msgs[i + 1..], tag);
      if msgs[i].tag == tag then before != [] && before[0] == msgs[i] && before[1..] == rest else before == rest
  {
    OnlyAround(msgs, i, MessageOf(tag));
    if msgs[i].tag == tag {
      OnlyNone(msgs[..i], MessageOf(tag));
      assert OnTag(msgs, tag) == [msgs[i]] + OnTag(msgs[i + 1..], tag);
    }
  }

  /** Exactly when order is kept: serving a stored message of tag t from index i leaves the messages of
      tag u in the order they had, the served one aside, if and only if the message swapped into its
      place is not moved ahead of another message of tag u. */
  lemma OrderKeptIff(b: Box, t: nat, u: nat)
    requires PositionFrom(b.msgs, t, 0) < |b.msgs|
    ensures var i := PositionFrom(b.msgs, t, 0); var before := OnTag(b.msgs, u);
      && (u == t ==> before != [] && before[0] == b.msgs[i])
      && (OnTag(Receive(b, t).msgs, u) == (if u == t then before[1..] else before)
          <==> NonePassed(b.msgs, i, MessageOf(u)))
  {
    var i := PositionFrom(b.msgs, t, 0);
    OthersAround(b.msgs, i, u);
    SwapKeepsIff(b.msgs, i, MessageOf(u));
  }

  /** So order within a tag is not kept in general: serving one tag can swap the messages of another. */
  lemma TagOrderNotKept(a: Message, first: Message, second: Message)
    requires a.tag != first.tag && first.tag == second.tag
    ensures var b := Receive(Receive(Box([], [a, first, second], []), a.tag), first.tag);
      |b.receivers| == 2 && b.receivers[0].got == Some(a) && b.receivers[1].got == Some(second)
    ensures Deliver(Deliver(Deliver(EmptyBox, a), first), second) == Box([], [a, first, second], [])
  {
    assert [a, first, second][..2] == [a, first];
    assert SwapRemove([a, first, second], 0) == [second, first];
    assert Receive(Box([], [a, first, second], []), a.tag) ==
      Box([], [second, first], [Receiver(a.tag, true, Some(a))]);
  }

  // ---- the order of waiting receivers ----------------------------------------------------

  function WaiterOf(tag: nat, receivers: seq<Receiver>): Waiter -> bool {
    (w: Waiter) => w.tag == tag && w.id < |receivers| && receivers[w.id].open
  }

  /** The receivers of a tag still wanted, in the order in which they stand. */
  function Waiting(reg: seq<Waiter>, tag: nat, receivers: seq<Receiver>): seq<Waiter> {
    Only(reg, WaiterOf(tag, receivers))
  }

  /** None of the swaps of a delivery moves a waiter that counts ahead of another. */
  ghost predicate NoneOvertaken(reg: seq<Waiter>, i: nat, tag: nat, receivers: seq<Receiver>, p: Waiter -> bool)
    requires Registered(reg, |receivers|)
    decreases |reg| - i
  {
    if i >= |reg| then true
    else if reg[i].tag != tag then NoneOvertaken(reg, i + 1, tag, receivers, p)
    else
      SwapRemoved(reg, i, |receivers|);
      assert reg[i] in reg;
      && NonePassed(reg, i, p)
      && (receivers[reg[i].id].open || NoneOvertaken(SwapRemove(reg, i), i, tag, receivers, p))
  }

  /** A delivery is fair to a tag: the waiters of it keep their order, and if the message is theirs,
      the first of them gets it. */
  ghost predicate Fair(reg: seq<Waiter>, f: Fate, tag: nat, u: nat, receivers: seq<Receiver>) {
    var before := Waiting(reg, u, receivers);
    if u == tag && before != [] then
      f.Given? && f.id == before[0].id && Waiting(f.registered, u, receivers) == before[1..]
    else Waiting(f.registered, u, receivers) == before
  }

  /** What the delivery loop has passed stays where it is. */
  lemma {:induction false} OfferKeepsFront(reg: seq<Waiter>, i: nat, tag: nat, receivers: seq<Receiver>)
    requires Registered(reg, |receivers|) && i <= |reg|
    ensures reg[..i] <= OfferFrom(reg, i, tag, receivers).registered
    decreases |reg| - i
  {
    if i < |reg| {
      assert reg[i] in reg;
      if reg[i].tag != tag {
        OfferKeepsFront(reg, i + 1, tag, receivers);
        assert reg[..i + 1][..i] == reg[..i];
      } else {
        SwapRemoved(reg, i, |receivers|);
        assert SwapRemove(reg, i)[..i] == reg[..i];
        if !receivers[reg[i].id].open { OfferKeepsFront(SwapRemove(reg, i), i, tag, receivers); }
      }
    }
  }

  lemma WithoutOne<T>(front: seq<T>, x: T, middle: seq<T>, last: T, p: T -> bool)
    requires !p(x) && p(last)
    ensures Only(front + [x] + middle + [last], p) == Only(front, p) + (Only(middle, p) + [last])
  {
    SwapOnly(front, x, middle, last, p);
    OnlyOne(x, p);
    OnlyOne(last, p);
    assert Only(front, p) + [] == Only(front, p);
    assert Only(front, p) + Only(middle, p) + [last] == Only(front, p) + (Only(middle, p) + [last]);
  }

  lemma MovedAhead<T>(front: seq<T>, last: T, tail: seq<T>, p: T -> bool)
    requires p(last)
    ensures Only(front + [last] + tail, p) == Only(front, p) + ([last] + Only(tail, p))
  {
    OnlyConcat(front + [last], tail, p);
    OnlyConcat(front, [last], p);
    OnlyOne(last, p);
    assert Only(front, p) + [last] + Only(tail, p) == Only(front, p) + ([last] + Only(tail, p));
  }

  lemma AheadDiffers<T>(front: seq<T>, x: T, tail: seq<T>, middle: seq<T>)
    requires middle != [] && middle[0] != x
    ensures front + ([x] + tail) != front + (middle + [x])
  {
    assert (front + ([x] + tail))[|front|] == x;
    assert (front + (middle + [x]))[|front|] == middle[0];
  }

  /** Where the last waiter overtook another, the order differs from before. */
  lemma OvertakenDiffers(reg: seq<Waiter>, i: nat, p: Waiter -> bool, tail: seq<Waiter>, count: nat)
    requires Registered(reg, count) && i < |reg| && !NonePassed(reg, i, p) && !p(reg[i])
    ensures Only(reg[..i] + [reg[|reg| - 1]] + tail, p) != Only(reg, p)
  {
    MiddleFirst(reg, i, p, count);
    OvertakenParts(reg[..i], reg[i], reg[i + 1..|reg| - 1], reg[|reg| - 1], tail, p);
    SwapParts(reg, i);
  }

  lemma OvertakenParts<T>(front: seq<T>, x: T, middle: seq<T>, last: T, tail: seq<T>, p: T -> bool)
    requires !p(x) && p(last) && Only(middle, p) != [] && Only(middle, p)[0] != last
    ensures Only(front + [last] + tail, p) != Only(front + [x] + middle + [last], p)
  {
    WithoutOne(front, x, middle, last, p);
    MovedAhead(front, last, tail, p);
    AheadDiffers(Only(front, p), last, Only(tail, p), Only(middle, p));
  }

  /** Of the waiters overtaken, the first is not the one that overtakes. */
  lemma MiddleFirst(reg: seq<Waiter>, i: nat, p: Waiter -> bool, count: nat)
    requires Registered(reg, count) && i < |reg| && !NonePassed(reg, i, p)
    ensures var n := |reg| - 1; var middle := Only(reg[i + 1..n], p);
      middle != [] && middle[0] != reg[n] && middle[0] in reg[i + 1..n]
  {
    var n := |reg| - 1;
    var middle := reg[i + 1..n];
    var j :| i < j < n && p(reg[j]) && reg[j] != reg[n];
    assert middle[j - i - 1] == reg[j];
    OnlyIn(middle, p, reg[j]);
    OnlyIn(middle, p, Only(middle, p)[0]);
    var k :| 0 <= k < |middle| && middle[k] == Only(middle, p)[0];
    assert reg[i + 1 + k] == middle[k];
  }

  lemma {:induction false} OnlyIn<T>(s: seq<T>, p: T -> bool, x: T)
    ensures x in Only(s, p) <==> x in s && p(x)
  {
    if s != [] {
      OnlyIn(s[..|s| - 1], p, x);
      assert s == s[..|s| - 1] + [s[|s| - 1]];
    }
  }

  /** The loop removes an open waiter of its tag: that is the first of them, and the others keep
      their order if the swap passes none. */
  lemma ServedFairIff(reg: seq<Waiter>, i: nat, tag: nat, u: nat, receivers: seq<Receiver>)
    requires Registered(reg, |receivers|) && i < |reg| && reg[i].tag == tag && WaiterOf(tag, receivers)(reg[i])
    requires forall j :: 0 <= j < i ==> reg[j].tag != tag
    ensures Fair(reg, Given(SwapRemove(reg, i), reg[i].id), tag, u, receivers) <==>
            NonePassed(reg, i, WaiterOf(u, receivers))
  {
    var p := WaiterOf(u, receivers);
    OnlyAround(reg, i, p);
    SwapKeepsIff(reg, i, p);
    if u == tag {
      OnlyNone(reg[..i], p);
      assert Only(reg, p) == [reg[i]] + Only(reg[i + 1..], p);
      assert [] + Only(reg[i + 1..], p) == Only(reg, p)[1..];
    } else {
      assert Only(reg[..i], p) + [] + Only(reg[i + 1..], p) == Only(reg[..i], p) + Only(reg[i + 1..], p);
    }
  }

  /** The loop has removed an abandoned waiter, and the one swapped in, of another tag, overtook. */
  lemma OtherOvertaken(reg: seq<Waiter>, i: nat, tag: nat, p: Waiter -> bool, receivers: seq<Receiver>)
    requires Registered(reg, |receivers|) && i < |reg| && !p(reg[i]) && reg[|reg| - 1].tag != tag
    requires !NonePassed(reg, i, p) && Registered(SwapRemove(reg, i), |receivers|)
    ensures Only(OfferFrom(SwapRemove(reg, i), i, tag, receivers).registered, p) != Only(reg, p)
  {
    var rest, last := SwapRemove(reg, i), reg[|reg| - 1];
    assert rest[i] == last;
    OfferKeepsFront(rest, i + 1, tag, receivers);
    assert rest[..i + 1] == reg[..i] + [last];
    var after := OfferFrom(rest, i, tag, receivers).registered;
    SplitAt(after, rest[..i + 1]);
    OvertakenDiffers(reg, i, p, after[i + 1..], |receivers|);
  }

  lemma SplitAt<T>(s: seq<T>, front: seq<T>)
    requires front <= s
    ensures s == front + s[|front|..]
  {
  }

  /** The same for a waiter of the message's own tag: it is served out of turn. */
  lemma OwnOvertaken(reg: seq<Waiter>, i: nat, tag: nat, receivers: seq<Receiver>)
    requires Registered(reg, |receivers|) && i < |reg| && !WaiterOf(tag, receivers)(reg[i])
    requires forall j :: 0 <= j < i ==> reg[j].tag != tag
    requires !NonePassed(reg, i, WaiterOf(tag, receivers)) && Registered(SwapRemove(reg, i), |receivers|)
    ensures var f := OfferFrom(SwapRemove(reg, i), i, tag, receivers); var before := Waiting(reg, tag, receivers);
      f.Given? && before != [] && f.id != before[0].id
  {
    var rest, last := SwapRemove(reg, i), reg[|reg| - 1];
    assert rest[i] == last && WaiterOf(tag, receivers)(last);
    FirstWaiting(reg, i, tag, receivers);
  }

  lemma FirstWaiting(reg: seq<Waiter>, i: nat, tag: nat, receivers: seq<Receiver>)
    requires Registered(reg, |receivers|) && i < |reg| && !WaiterOf(tag, receivers)(reg[i])
    requires forall j :: 0 <= j < i ==> reg[j].tag != tag
    requires !NonePassed(reg, i, WaiterOf(tag, receivers))
    ensures var before := Waiting(reg, tag, receivers); before != [] && before[0].id != reg[|reg| - 1].id
  {
    var p, last, middle := WaiterOf(tag, receivers), reg[|reg| - 1], reg[i + 1..|reg| - 1];
    MiddleFirst(reg, i, p, |receivers|);
    var k :| 0 <= k < |middle| && middle[k] == Only(middle, p)[0];
    assert reg[i + 1 + k].id != last.id;
    OnlyNone(reg[..i], p);
    WithoutOne(reg[..i], reg[i], middle, last, p);
    SwapParts(reg, i);
    assert Only(reg, p)[0] == ([] + (Only(middle, p) + [last]))[0];
  }

  /** The loop removes an abandoned waiter. */
  lemma AbandonedKeepsIff(reg: seq<Waiter>, i: nat, p: Waiter -> bool)
    requires i < |reg| && !p(reg[i])
    ensures Only(SwapRemove(reg, i), p) == Only(reg, p) <==> NonePassed(reg, i, p)
  {
    OnlyAround(reg, i, p);
    SwapKeepsIff(reg, i, p);
    assert Only(reg[..i], p) + [] == Only(reg[..i], p);
  }

  lemma {:induction false} OfferFairIff(reg: seq<Waiter>, i: nat, tag: nat, u: nat, receivers: seq<Receiver>)
    requires Registered(reg, |receivers|) && forall j :: 0 <= j < i && j < |reg| ==> reg[j].tag != tag
    ensures Fair(reg, OfferFrom(reg, i, tag, receivers), tag, u, receivers) <==>
            NoneOvertaken(reg, i, tag, receivers, WaiterOf(u, receivers))
    decreases |reg| - i
  {
    var p := WaiterOf(u, receivers);
    if i >= |reg| {
      if u == tag { OnlyNone(reg, p); }
    } else if reg[i].tag != tag {
      OfferFairIff(reg, i + 1, tag, u, receivers);
    } else {
      SwapRemoved(reg, i, |receivers|);
      assert reg[i] in reg;
      if receivers[reg[i].id].open {
        ServedFairIff(reg, i, tag, u, receivers);
      } else {
        AbandonedKeepsIff(reg, i, p);
        OfferFairIff(SwapRemove(reg, i), i, tag, u, receivers);
        if !NonePassed(reg, i, p) {
          if u == tag { OwnOvertaken(reg, i, tag, receivers); } else { OtherOvertaken(reg, i, tag, p, receivers); }
        }
      }
    }
  }

  /** Exactly when receivers keep their turn: a delivery gives its message to the first receiver of the
      tag still wanted, and leaves those of every tag in the order they had, if and only if none of its
      swaps moves the last waiter ahead of another of that tag that is still wanted. */
  lemma TurnsKeptIff(b: Box, m: Message, u: nat)
    requires BoxOk(b)
    ensures var b' := Deliver(b, m); var before := Waiting(b.registered, u, b.receivers);
      && (forall w :: w in before ==> w.id < |b'.receivers|)
      && ((if u == m.tag && before != [] then
             b'.receivers[before[0].id].got == Some(m) && Waiting(b'.registered, u, b.receivers) == before[1..]
           else Waiting(b'.registered, u, b.receivers) == before)
          <==> NoneOvertaken(b.registered, 0, m.tag, b.receivers, WaiterOf(u, b.receivers)))
  {
    OfferFairIff(b.registered, 0, m.tag, u, b.receivers);
    OfferExact(b.registered, 0, m.tag, b.receivers);
    var p, before := WaiterOf(u, b.receivers), Waiting(b.registered, u, b.receivers);
    forall w | w in before ensures w in b.registered && p(w) && WaiterOk(b, w) { OnlyIn(b.registered, p, w); }
    if before != [] { assert before[0] in before; }
  }

  /** So receivers do not keep their turn in general: serving one tag can swap the waiters of another. */
  lemma TurnsNotKept(a: Message, x: Message, y: Message)
    requires a.tag != x.tag && x.tag == y.tag
    ensures var b := Receive(Receive(Receive(EmptyBox, a.tag), x.tag), x.tag);
      && b.registered == [Waiter(a.tag, 0), Waiter(x.tag, 1), Waiter(x.tag, 2)] && |b.receivers| == 3
      && var r := Deliver(Deliver(Deliver(b, a), x), y).receivers;
      |r| == 3 && r[0].got == Some(a) && r[1].got == Some(y) && r[2].got == Some(x)
  {
    var p, q, r := Waiter(a.tag, 0), Waiter(x.tag, 1), Waiter(x.tag, 2);
    var t, u := Receiver(a.tag, true, None), Receiver(x.tag, true, None);
    assert Receive(Receive(Receive(EmptyBox, a.tag), x.tag), x.tag) == Box([p, q, r], [], [t, u, u]);
    assert SwapRemove([p, q, r], 0) == [r, q] && SwapRemove([r, q], 0) == [q];
    var t', q', r' := t.(got := Some(a)), u.(got := Some(y)), u.(got := Some(x));
    assert Deliver(Box([p, q, r], [], [t, u, u]), a) == Box([r, q], [], [t', u, u]);
    assert Deliver(Box([r, q], [], [t', u, u]), x) == Box([q], [], [t', u, r']);
    assert Deliver(Box([q], [], [t', u, r']), y) == Box([], [], [t', q', r']);
  }

  // ---- the mailbox in its own form -------------------------------------------------------

  class Inbox {
    var registered: seq<Waiter>
    var msgs: seq<Message>
    var receivers: seq<Receiver>

    ghost predicate Valid()
      reads this
    {
      BoxOk(View())
    }

    ghost function View(): Box
      reads this
    {
      Box(registered, msgs, receivers)
    }

    constructor ()
      ensures Valid() && View() == EmptyBox
    {
      registered, msgs, receivers := [], [], [];
    }

    method Deliver(msg: Message)
      requires Valid()
      modifies this
      ensures Valid() && View() == BoxNext(old(View()), Delivered(msg))
    {
      DeliverOk(View(), msg);
      var i := 0;
      while i < |registered|
        invariant 0 <= i <= |registered| && msgs == old(msgs) && receivers == old(receivers)
        invariant Registered(registered, |receivers|)
        invariant OfferFrom(old(registered), 0, msg.tag, receivers) == OfferFrom(registered, i, msg.tag, receivers)
        decreases |registered| - i
      {
        var w := registered[i];
        if w.tag == msg.tag {
          assert w in registered;
          SwapRemoved(registered, i, |receivers|);
          registered := SwapRemove(registered, i);
          if receivers[w.id].open {
            receivers := receivers[w.id := receivers[w.id].(got := Some(msg))];
            return;
          }
        } else {
          i := i + 1;
        }
      }
      msgs := msgs + [msg];
    }

    method Recv(tag: nat) returns (id: nat)
      requires Valid()
      modifies this
      ensures Valid() && View() == BoxNext(old(View()), Received(tag)) && id == |old(receivers)|
    {
      ReceiveOk(View(), tag);
      id := |receivers|;
      var i := 0;
      while i < |msgs| && msgs[i].tag != tag
        invariant 0 <= i <= |msgs|
        invariant PositionFrom(msgs, tag, 0) == PositionFrom(msgs, tag, i)
      {
        i := i + 1;
      }
      if i < |msgs| {
        receivers := receivers + [Receiver(tag, true, Some(msgs[i]))];
        msgs := SwapRemove(msgs, i);
      } else {
        registered := registered + [Waiter(tag, id)];
        receivers := receivers + [Receiver(tag, true, None)];
      }
    }
  }
}
