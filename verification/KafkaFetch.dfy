/** Fetching: a byte-limited walk over an assignment that moves its cursors in place. */
module KafkaFetch {
  import opened KafkaBroker

  datatype Offset = Beginning | End | Stored | Invalid | At(position: int) | Tail(distance: int)

  datatype Elem = Elem(topic: string, partition: int, offset: Offset)

  datatype Limits = Limits(total: nat, perPartition: nat)

  datatype FetchError = NoSuchTopic | NoSuchPartition | NoOffset

  datatype FetchResult = Fetched(msgs: seq<Message>, tpl: seq<Elem>) | FetchFailed(error: FetchError) | FetchPanic

  datatype Found = Found(partition: Partition) | NotFound(error: FetchError)

  /** A negative partition number becomes a huge index, hence an unknown partition. */
  function GetPartition(b: Logs, topic: string, partition: int): Found {
    if topic !in b then NotFound(NoSuchTopic)
    else if partition < 0 || partition >= |b[topic].partitions| then NotFound(NoSuchPartition)
    else Found(b[topic].partitions[partition])
  }

  /** The first index whose message has offset o or more (`partition_point` on an ordered log). */
  function PointFrom(msgs: seq<Message>, o: int, i: nat): nat
    requires i <= |msgs|
    decreases |msgs| - i
  {
    if i < |msgs| && msgs[i].offset < o then PointFrom(msgs, o, i + 1) else i
  }

  datatype Start = StartAt(index: nat) | StartInvalid | StartPanic

  function StartIndex(msgs: seq<Message>, offset: Offset): Start
    requires msgs != []
  {
    match offset
    case Beginning => StartAt(0)
    case End => StartAt(|msgs| - 1)
    case Stored => StartPanic
    case Invalid => StartInvalid
    case At(o) => StartAt(PointFrom(msgs, o, 0))
    case Tail(_) => StartPanic
  }

  datatype Scan = Scan(elem: Elem, rets: seq<Message>, total: nat, stopped: bool)

  /** The inner loop: takes messages from index i on until a byte limit would be passed. */
  function ScanFrom(p: Partition, i: nat, e: Elem, rets: seq<Message>, total: nat, inPartition: nat, lim: Limits): Scan
    decreases |p.msgs| - i
  {
    if i >= |p.msgs| then Scan(e, rets, total, false)
    else
      var m := p.msgs[i];
      if m.offset >= p.high then ScanFrom(p, i + 1, e, rets, total, inPartition, lim)
      else if total + Size(m) > lim.total || inPartition + Size(m) > lim.perPartition then Scan(e, rets, total, true)
      else ScanFrom(p, i + 1, e.(offset := At(m.offset + 1)), rets + [m], total + Size(m), inPartition + Size(m), lim)
  }

  /** The outer loop, from element i of the assignment on; hitting a limit ends the whole fetch. */
  function FetchFrom(b: Logs, tpl: seq<Elem>, i: nat, rets: seq<Message>, total: nat, lim: Limits): FetchResult
    decreases |tpl| - i
  {
    if i >= |tpl| then Fetched(rets, tpl)
    else
      match GetPartition(b, tpl[i].topic, tpl[i].partition)
      case NotFound(error) => FetchFailed(error)
      case Found(p) =>
        if p.msgs == [] then FetchFrom(b, tpl, i + 1, rets, total, lim)
        else
          match StartIndex(p.msgs, tpl[i].offset)
          case StartPanic => FetchPanic
          case StartInvalid => FetchFailed(NoOffset)
          case StartAt(start) =>
            var s := ScanFrom(p, start, tpl[i], rets, total, 0, lim);
            if s.stopped then Fetched(s.rets, tpl[i := s.elem])
            else FetchFrom(b, tpl[i := s.elem], i + 1, s.rets, s.total, lim)
  }

  function Fetch(b: Logs, tpl: seq<Elem>, lim: Limits): FetchResult {
    FetchFrom(b, tpl, 0, [], 0, lim)
  }

  // ---- what a fetch takes ----------------------------------------------------------------

  function TotalSize(msgs: seq<Message>): nat {
    if msgs == [] then 0 else TotalSize(msgs[..|msgs| - 1]) + Size(msgs[|msgs| - 1])
  }

  lemma {:induction false} TotalSizeConcat(a: seq<Message>, b: seq<Message>)
    ensures TotalSize(a + b) == TotalSize(a) + TotalSize(b)
  {
    if b == [] {
      assert a + b == a;
    } else {
      assert (a + b)[..|a + b| - 1] == a + b[..|b| - 1];
      TotalSizeConcat(a, b[..|b| - 1]);
    }
  }

  /** Whether the offset names a position by itself. */
  predicate Settled(e: Elem) {
    e.offset.Beginning? || e.offset.At?
  }

  /** The offsets that can be read from: `End` names a position once there are messages. */
  predicate Readable(e: Elem) {
    Settled(e) || e.offset.End?
  }

  /** The position of the next message wanted. */
  function Cursor(e: Elem): nat
    requires Settled(e)
  {
    if e.offset.Beginning? || e.offset.position < 0 then 0 else e.offset.position
  }

  function Log(b: Logs, topic: string, partition: int): seq<Message> {
    var f := GetPartition(b, topic, partition);
    if f.Found? then f.partition.msgs else []
  }

  function LogOf(b: Logs, e: Elem): seq<Message> {
    Log(b, e.topic, e.partition)
  }

  predicate Known(b: Logs, e: Elem) {
    GetPartition(b, e.topic, e.partition).Found?
  }

  /** Where a fetch starts to read: for `End`, at the last message there is. */
  function StartOf(b: Logs, e: Elem): nat
    requires Readable(e)
  {
    if Settled(e) then Cursor(e) else if LogOf(b, e) == [] then 0 else |LogOf(b, e)| - 1
  }

  lemma {:induction false} PointDense(msgs: seq<Message>, o: int, i: nat)
    requires i <= |msgs| && (i <= o || i == 0)
    requires forall j :: 0 <= j < |msgs| ==> msgs[j].offset == j
    ensures PointFrom(msgs, o, i) == if o < 0 then 0 else if o > |msgs| then |msgs| else o
    decreases |msgs| - i
  {
    if i < |msgs| && msgs[i].offset < o { PointDense(msgs, o, i + 1); }
  }

  /** The cursor moved over `taken`, the stretch of the log from where it started to where it now is. */
  ghost predicate Advanced(b: Logs, e: Elem, e': Elem, taken: seq<Message>)
    requires Readable(e)
  {
    && e'.topic == e.topic && e'.partition == e.partition
    && (if taken == [] then e' == e
        else
          && Settled(e') && StartOf(b, e) + |taken| == Cursor(e') <= |LogOf(b, e)|
          && taken == LogOf(b, e)[StartOf(b, e)..Cursor(e')])
  }

  /** s is what a scan from index i yields that took k messages and no more. */
  ghost predicate Scanned(p: Partition, i: nat, k: nat, e: Elem, rets: seq<Message>, total: nat, inPartition: nat,
                          lim: Limits, s: Scan) {
    && i + k <= |p.msgs|
    && var taken := p.msgs[i..i + k];
    && s.rets == rets + taken
    && s.elem == (if k == 0 then e else e.(offset := At(i + k)))
    && s.total == total + TotalSize(taken) <= lim.total
    && inPartition + TotalSize(taken) <= lim.perPartition
    && (s.stopped <==> i + k < |p.msgs|)
    && (s.stopped ==> s.total + Size(p.msgs[i + k]) > lim.total
                      || inPartition + TotalSize(taken) + Size(p.msgs[i + k]) > lim.perPartition)
  }

  lemma ScannedMore(p: Partition, i: nat, k: nat, e: Elem, rets: seq<Message>, total: nat, inPartition: nat,
                    lim: Limits, s: Scan)
    requires i < |p.msgs|
    requires var m := p.msgs[i];
      Scanned(p, i + 1, k, e.(offset := At(i + 1)), rets + [m], total + Size(m), inPartition + Size(m), lim, s)
    ensures Scanned(p, i, k + 1, e, rets, total, inPartition, lim, s)
  {
    var m := p.msgs[i];
    var rest := p.msgs[i + 1..i + 1 + k];
    assert p.msgs[i..i + 1 + k] == [m] + rest;
    TotalSizeConcat([m], rest);
    assert [m][..0] == [];
    assert TotalSize([m]) == Size(m);
    assert (rets + [m]) + rest == rets + ([m] + rest);
  }

  /** The inner loop takes the longest stretch that both limits allow. */
  lemma {:induction false} ScanExact(p: Partition, name: string, index: nat, i: nat, e: Elem, rets: seq<Message>,
                                     total: nat, inPartition: nat, lim: Limits)
    returns (k: nat)
    requires DenseLog(p, name, index) && i <= |p.msgs|
    requires total <= lim.total && inPartition <= lim.perPartition
    ensures Scanned(p, i, k, e, rets, total, inPartition, lim, ScanFrom(p, i, e, rets, total, inPartition, lim))
    decreases |p.msgs| - i
  {
    k := 0;
    assert p.msgs[i..i] == [] && rets + [] == rets;
    if i < |p.msgs| {
      var m := p.msgs[i];
      if total + Size(m) <= lim.total && inPartition + Size(m) <= lim.perPartition {
        var e1 := e.(offset := At(m.offset + 1));
        k := ScanExact(p, name, index, i + 1, e1, rets + [m], total + Size(m), inPartition + Size(m), lim);
        ScannedMore(p, i, k, e, rets, total, inPartition, lim, ScanFrom(p, i, e, rets, total, inPartition, lim));
        k := k + 1;
      }
    }
  }

  // ---- the outer loop --------------------------------------------------------------------

  /** The messages a fetch took from each element, joined. */
  function Joined(takes: seq<seq<Message>>): seq<Message> {
    if takes == [] then [] else takes[0] + Joined(takes[1..])
  }

  ghost predicate Fetchable(b: Logs, tpl: seq<Elem>) {
    forall e :: e in tpl ==> Known(b, e) && Readable(e)
  }

  /** From element i on, element j moved over takes[j - i]. */
  ghost predicate AllAdvanced(b: Logs, tpl: seq<Elem>, tpl': seq<Elem>, i: nat, takes: seq<seq<Message>>, lim: Limits)
    requires Fetchable(b, tpl) && i <= |tpl|
  {
    && |tpl'| == |tpl| && |takes| == |tpl| - i
    && (forall j :: 0 <= j < i ==> tpl'[j] == tpl[j])
    && (forall j :: i <= j < |tpl| ==>
         Advanced(b, tpl[j], tpl'[j], takes[j - i]) && TotalSize(takes[j - i]) <= lim.perPartition)
  }

  /** A fetch reads from the cursor, or from the end of the log if the cursor is beyond it. */
  lemma StartIndexIs(b: Logs, e: Elem)
    requires Dense(b) && Known(b, e) && Readable(e) && LogOf(b, e) != []
    ensures var log := LogOf(b, e);
      StartIndex(log, e.offset) == StartAt(if StartOf(b, e) > |log| then |log| else StartOf(b, e))
  {
    assert DenseLog(GetPartition(b, e.topic, e.partition).partition, e.topic, e.partition);
    if e.offset.At? { PointDense(LogOf(b, e), e.offset.position, 0); }
  }

  /** The next message of e passes one of the limits. */
  predicate Blocked(b: Logs, e: Elem, total: nat, lim: Limits)
    requires Readable(e)
  {
    && StartOf(b, e) < |LogOf(b, e)|
    && var size := Size(LogOf(b, e)[StartOf(b, e)]);
    total + size > lim.total || size > lim.perPartition
  }

  /** s is what the turn of element e comes to, taking `taken`. */
  ghost predicate Turn(b: Logs, e: Elem, rets: seq<Message>, total: nat, lim: Limits, taken: seq<Message>, s: Scan)
    requires Readable(e)
  {
    && Advanced(b, e, s.elem, taken) && s.rets == rets + taken
    && s.total == total + TotalSize(taken) <= lim.total && TotalSize(taken) <= lim.perPartition
    && (!s.stopped ==> |LogOf(b, e)| <= StartOf(b, s.elem))
    && (s.stopped && taken == [] ==> Blocked(b, e, total, lim))
  }

  lemma ScannedTurn(b: Logs, e: Elem, rets: seq<Message>, total: nat, lim: Limits, start: nat, k: nat, s: Scan)
    requires Readable(e) && Known(b, e) && LogOf(b, e) != []
    requires start == if StartOf(b, e) > |LogOf(b, e)| then |LogOf(b, e)| else StartOf(b, e)
    requires Scanned(GetPartition(b, e.topic, e.partition).partition, start, k, e, rets, total, 0, lim, s)
    ensures Turn(b, e, rets, total, lim, LogOf(b, e)[start..start + k], s)
  {
  }

  /** One element: nothing to take, or a scan from its cursor. */
  lemma ElemAdvanced(b: Logs, e: Elem, rets: seq<Message>, total: nat, lim: Limits)
    returns (taken: seq<Message>, s: Scan)
    requires Dense(b) && Known(b, e) && Readable(e) && total <= lim.total
    ensures var p := GetPartition(b, e.topic, e.partition).partition;
      && (p.msgs == [] ==> s == Scan(e, rets, total, false))
      && (p.msgs != [] ==> StartIndex(p.msgs, e.offset).StartAt?
                           && s == ScanFrom(p, StartIndex(p.msgs, e.offset).index, e, rets, total, 0, lim))
    ensures Turn(b, e, rets, total, lim, taken, s)
  {
    var p := GetPartition(b, e.topic, e.partition).partition;
    assert DenseLog(p, e.topic, e.partition);
    taken := [];
    assert rets + [] == rets;
    if p.msgs == [] {
      s := Scan(e, rets, total, false);
    } else {
      StartIndexIs(b, e);
      var start := StartIndex(p.msgs, e.offset).index;
      var k := ScanExact(p, e.topic, e.partition, start, e, rets, total, 0, lim);
      s := ScanFrom(p, start, e, rets, total, 0, lim);
      ScannedTurn(b, e, rets, total, lim, start, k, s);
      taken := p.msgs[start..start + k];
    }
  }

  function Empties(n: nat): (r: seq<seq<Message>>)
    ensures |r| == n && forall i :: 0 <= i < n ==> r[i] == []
  {
    seq(n, i requires 0 <= i < n => [])
  }

  lemma {:induction false} JoinedEmpties(takes: seq<seq<Message>>)
    requires forall i :: 0 <= i < |takes| ==> takes[i] == []
    ensures Joined(takes) == []
  {
    if takes != [] { JoinedEmpties(takes[1..]); }
  }

  lemma JoinedCons(first: seq<Message>, rest: seq<seq<Message>>)
    ensures Joined([first] + rest) == first + Joined(rest)
  {
    assert ([first] + rest)[1..] == rest;
  }

  lemma AllAdvancedCons(b: Logs, tpl: seq<Elem>, e: Elem, tpl': seq<Elem>, i: nat, taken: seq<Message>,
                        rest: seq<seq<Message>>, lim: Limits)
    requires Fetchable(b, tpl) && i < |tpl| && Advanced(b, tpl[i], e, taken) && TotalSize(taken) <= lim.perPartition
    requires Fetchable(b, tpl[i := e]) && AllAdvanced(b, tpl[i := e], tpl', i + 1, rest, lim)
    ensures AllAdvanced(b, tpl, tpl', i, [taken] + rest, lim)
  {
    var takes := [taken] + rest;
    assert forall j :: 0 <= j < i ==> tpl'[j] == tpl[i := e][j] == tpl[j];
    forall j | i <= j < |tpl|
      ensures tpl[j] in tpl && Advanced(b, tpl[j], tpl'[j], takes[j - i]) && TotalSize(takes[j - i]) <= lim.perPartition
    {
      if j == i {
        assert tpl'[i] == tpl[i := e][i] == e;
      } else {
        assert takes[j - i] == rest[j - (i + 1)] && tpl[i := e][j] == tpl[j];
      }
    }
  }

  lemma FetchableUpdate(b: Logs, tpl: seq<Elem>, i: nat, e: Elem, taken: seq<Message>)
    requires Fetchable(b, tpl) && i < |tpl|
    requires tpl[i] in tpl && Advanced(b, tpl[i], e, taken)
    ensures Fetchable(b, tpl[i := e])
  {
    forall x | x in tpl[i := e] ensures Known(b, x) && Readable(x) {
      var j :| 0 <= j < |tpl| && tpl[i := e][j] == x;
      assert j != i ==> x == tpl[j] && tpl[j] in tpl;
    }
  }

  /** One turn of the outer loop. */
  lemma FetchOne(b: Logs, tpl: seq<Elem>, i: nat, rets: seq<Message>, total: nat, lim: Limits)
    returns (taken: seq<Message>, s: Scan)
    requires Dense(b) && Fetchable(b, tpl) && i < |tpl| && total <= lim.total
    ensures tpl[i] in tpl && Turn(b, tpl[i], rets, total, lim, taken, s) && Fetchable(b, tpl[i := s.elem])
    ensures FetchFrom(b, tpl, i, rets, total, lim) ==
      if s.stopped then Fetched(s.rets, tpl[i := s.elem])
      else FetchFrom(b, tpl[i := s.elem], i + 1, s.rets, s.total, lim)
  {
    assert tpl[i] in tpl;
    taken, s := ElemAdvanced(b, tpl[i], rets, total, lim);
    FetchableUpdate(b, tpl, i, s.elem, taken);
    if LogOf(b, tpl[i]) == [] { assert tpl[i := s.elem] == tpl; }
  }

  /** r hands out, element by element from i on, the stretches its cursors moved over, within the
      total limit and, per element, within the partition limit. */
  ghost predicate HandsOut(b: Logs, tpl: seq<Elem>, i: nat, rets: seq<Message>, total: nat, lim: Limits,
                           takes: seq<seq<Message>>, r: FetchResult)
    requires Fetchable(b, tpl) && i <= |tpl|
  {
    && r.Fetched? && AllAdvanced(b, tpl, r.tpl, i, takes, lim)
    && r.msgs == rets + Joined(takes)
    && total + TotalSize(Joined(takes)) <= lim.total
  }

  lemma HandsOutMore(b: Logs, tpl: seq<Elem>, i: nat, rets: seq<Message>, total: nat, lim: Limits, e: Elem,
                     taken: seq<Message>, rest: seq<seq<Message>>, r: FetchResult)
    requires Fetchable(b, tpl) && i < |tpl| && Advanced(b, tpl[i], e, taken) && TotalSize(taken) <= lim.perPartition
    requires Fetchable(b, tpl[i := e])
      && HandsOut(b, tpl[i := e], i + 1, rets + taken, total + TotalSize(taken), lim, rest, r)
    ensures HandsOut(b, tpl, i, rets, total, lim, [taken] + rest, r)
  {
    AllAdvancedCons(b, tpl, e, r.tpl, i, taken, rest, lim);
    JoinedCons(taken, rest);
    assert (rets + taken) + Joined(rest) == rets + (taken + Joined(rest));
    TotalSizeConcat(taken, Joined(rest));
  }

  lemma HandsOutNoMore(b: Logs, tpl: seq<Elem>, i: nat, rets: seq<Message>, total: nat, lim: Limits)
    requires Fetchable(b, tpl) && i <= |tpl| && total <= lim.total
    ensures HandsOut(b, tpl, i, rets, total, lim, Empties(|tpl| - i), Fetched(rets, tpl))
  {
    forall j | i <= j < |tpl| ensures Advanced(b, tpl[j], tpl[j], []) { assert tpl[j] in tpl; }
    JoinedEmpties(Empties(|tpl| - i));
    assert TotalSize([]) == 0;
    assert rets + [] == rets;
  }

  /** A fetch on dense logs succeeds and hands out exactly what its cursors moved over. */
  lemma {:induction false} FetchFromExact(b: Logs, tpl: seq<Elem>, i: nat, rets: seq<Message>, total: nat,
                                          lim: Limits)
    returns (takes: seq<seq<Message>>)
    requires Dense(b) && Fetchable(b, tpl) && i <= |tpl| && total <= lim.total
    ensures HandsOut(b, tpl, i, rets, total, lim, takes, FetchFrom(b, tpl, i, rets, total, lim))
    decreases |tpl| - i
  {
    if i == |tpl| {
      takes := Empties(0);
      HandsOutNoMore(b, tpl, i, rets, total, lim);
    } else {
      var taken, s := FetchOne(b, tpl, i, rets, total, lim);
      var rest: seq<seq<Message>>;
      if s.stopped {
        rest := Empties(|tpl| - (i + 1));
        HandsOutNoMore(b, tpl[i := s.elem], i + 1, s.rets, s.total, lim);
      } else {
        rest := FetchFromExact(b, tpl[i := s.elem], i + 1, s.rets, s.total, lim);
      }
      takes := [taken] + rest;
      HandsOutMore(b, tpl, i, rets, total, lim, s.elem, taken, rest, FetchFrom(b, tpl, i, rets, total, lim));
    }
  }

  // ---- when a fetch comes back empty -----------------------------------------------------

  predicate TooBig(m: Message, lim: Limits) {
    Size(m) > lim.total || Size(m) > lim.perPartition
  }

  /** No element from i on has a message waiting, or the first one that does has it too big. */
  ghost predicate Stuck(b: Logs, tpl: seq<Elem>, i: nat, lim: Limits)
    requires Fetchable(b, tpl) && i <= |tpl|
    decreases |tpl| - i
  {
    i < |tpl| ==>
      assert tpl[i] in tpl;
      var e := tpl[i];
      if StartOf(b, e) < |LogOf(b, e)| then TooBig(LogOf(b, e)[StartOf(b, e)], lim) else Stuck(b, tpl, i + 1, lim)
  }

  lemma {:induction false} EmptyIffStuck(b: Logs, tpl: seq<Elem>, i: nat, lim: Limits)
    requires Dense(b) && Fetchable(b, tpl) && i <= |tpl|
    ensures FetchFrom(b, tpl, i, [], 0, lim).Fetched?
    ensures FetchFrom(b, tpl, i, [], 0, lim).msgs == [] <==> Stuck(b, tpl, i, lim)
    decreases |tpl| - i
  {
    if i < |tpl| {
      var taken, s := FetchOne(b, tpl, i, [], 0, lim);
      if taken == [] {
        assert tpl[i := s.elem] == tpl && s.rets == [] && s.total == 0;
        if !s.stopped { EmptyIffStuck(b, tpl, i + 1, lim); }
      } else {
        TakenIsHandedOut(b, tpl[i := s.elem], i + 1, s.rets, s.total, lim);
        TakenFits(b, tpl[i], s.elem, taken, lim);
      }
    }
  }

  lemma TakenIsHandedOut(b: Logs, tpl: seq<Elem>, i: nat, rets: seq<Message>, total: nat, lim: Limits)
    requires Dense(b) && Fetchable(b, tpl) && i <= |tpl| && total <= lim.total && rets != []
    ensures FetchFrom(b, tpl, i, rets, total, lim).Fetched? && FetchFrom(b, tpl, i, rets, total, lim).msgs != []
  {
    var takes := FetchFromExact(b, tpl, i, rets, total, lim);
  }

  lemma TakenFits(b: Logs, e: Elem, e': Elem, taken: seq<Message>, lim: Limits)
    requires Readable(e) && Advanced(b, e, e', taken) && taken != []
    requires TotalSize(taken) <= lim.total && TotalSize(taken) <= lim.perPartition
    ensures StartOf(b, e) < |LogOf(b, e)| && !TooBig(LogOf(b, e)[StartOf(b, e)], lim)
  {
    assert taken == [taken[0]] + taken[1..];
    assert [taken[0]][..0] == [];
    assert TotalSize([taken[0]]) == Size(taken[0]);
    TotalSizeConcat([taken[0]], taken[1..]);
  }

  // ---- exactly when a fetch fails --------------------------------------------------------

  /** A fetch can pass over the element: its partition exists, and is empty or can be read. */
  predicate Passable(b: Logs, e: Elem) {
    Known(b, e) && (LogOf(b, e) == [] || Readable(e))
  }

  /** What of the element's log is still waiting. */
  function Waiting(b: Logs, e: Elem): seq<Message> {
    if !Readable(e) || StartOf(b, e) >= |LogOf(b, e)| then [] else LogOf(b, e)[StartOf(b, e)..]
  }

  function WaitingSize(b: Logs, elems: seq<Elem>): nat {
    if elems == [] then 0 else TotalSize(Waiting(b, elems[0])) + WaitingSize(b, elems[1..])
  }

  /** All that is waiting in the elements fits into one fetch, given what it took before. */
  predicate TakesAll(b: Logs, elems: seq<Elem>, total: nat, lim: Limits) {
    && total + WaitingSize(b, elems) <= lim.total
    && forall e :: e in elems ==> TotalSize(Waiting(b, e)) <= lim.perPartition
  }

  lemma TakesAllMore(b: Logs, e: Elem, elems: seq<Elem>, total: nat, lim: Limits)
    ensures TakesAll(b, [e] + elems, total, lim) <==>
      var size := TotalSize(Waiting(b, e)); size <= lim.perPartition && TakesAll(b, elems, total + size, lim)
  {
    assert ([e] + elems)[1..] == elems && ([e] + elems)[0] == e;
    assert forall x :: x in [e] + elems <==> x == e || x in elems;
  }

  /** What is wrong with an element that cannot be passed over; stored and tail offsets panic. */
  function Fault(b: Logs, e: Elem): FetchResult {
    if e.topic !in b then FetchFailed(NoSuchTopic)
    else if !Known(b, e) then FetchFailed(NoSuchPartition)
    else if e.offset.Invalid? then FetchFailed(NoOffset)
    else FetchPanic
  }

  /** One element that can be passed over: it stops the fetch exactly if what waits in it does not fit. */
  lemma PassOne(b: Logs, e: Elem, rets: seq<Message>, total: nat, lim: Limits) returns (s: Scan)
    requires Dense(b) && Passable(b, e) && total <= lim.total
    ensures var p := GetPartition(b, e.topic, e.partition).partition;
      && (p.msgs == [] ==> s == Scan(e, rets, total, false))
      && (p.msgs != [] ==> StartIndex(p.msgs, e.offset).StartAt?
                           && s == ScanFrom(p, StartIndex(p.msgs, e.offset).index, e, rets, total, 0, lim))
    ensures var size := TotalSize(Waiting(b, e));
      && (s.stopped <==> total + size > lim.total || size > lim.perPartition)
      && (!s.stopped ==> s.total == total + size)
  {
    var p := GetPartition(b, e.topic, e.partition).partition;
    assert DenseLog(p, e.topic, e.partition);
    if p.msgs == [] {
      s := Scan(e, rets, total, false);
    } else {
      StartIndexIs(b, e);
      var start := StartIndex(p.msgs, e.offset).index;
      var k := ScanExact(p, e.topic, e.partition, start, e, rets, total, 0, lim);
      s := ScanFrom(p, start, e, rets, total, 0, lim);
      if start == |p.msgs| {
        assert p.msgs[start..start + k] == [] && Waiting(b, e) == [];
      } else {
        assert Waiting(b, e) == p.msgs[start..];
        if s.stopped { StoppedBySize(p.msgs, start, k); } else { assert p.msgs[start..start + k] == p.msgs[start..]; }
      }
    }
  }

  /** A message more than fits is at most all that waits. */
  lemma StoppedBySize(msgs: seq<Message>, start: nat, k: nat)
    requires start + k < |msgs|
    ensures TotalSize(msgs[start..start + k]) + Size(msgs[start + k]) <= TotalSize(msgs[start..])
  {
    var taken, rest := msgs[start..start + k], msgs[start + k + 1..];
    assert msgs[start..] == (taken + [msgs[start + k]]) + rest;
    assert (taken + [msgs[start + k]])[..k] == taken;
    TotalSizeConcat(taken + [msgs[start + k]], rest);
  }

  /** The turn of an element that can be passed over, and of one that cannot. */
  lemma PassTurn(b: Logs, tpl: seq<Elem>, i: nat, rets: seq<Message>, total: nat, lim: Limits) returns (s: Scan)
    requires Dense(b) && i < |tpl| && Passable(b, tpl[i]) && total <= lim.total
    ensures var size := TotalSize(Waiting(b, tpl[i]));
      && (s.stopped <==> total + size > lim.total || size > lim.perPartition)
      && (!s.stopped ==> s.total == total + size)
    ensures FetchFrom(b, tpl, i, rets, total, lim) ==
      if s.stopped then Fetched(s.rets, tpl[i := s.elem])
      else FetchFrom(b, tpl[i := s.elem], i + 1, s.rets, s.total, lim)
  {
    s := PassOne(b, tpl[i], rets, total, lim);
    if LogOf(b, tpl[i]) == [] { assert tpl[i := s.elem] == tpl; }
  }

  lemma FaultTurn(b: Logs, tpl: seq<Elem>, k: nat, rets: seq<Message>, total: nat, lim: Limits)
    requires k < |tpl| && !Passable(b, tpl[k])
    ensures FetchFrom(b, tpl, k, rets, total, lim) == Fault(b, tpl[k])
  {
  }

  /** Up to k every element can be passed over, and k cannot if it is one. */
  predicate FirstFault(b: Logs, tpl: seq<Elem>, i: nat, k: nat) {
    i <= k <= |tpl| && (forall j :: i <= j < k ==> Passable(b, tpl[j])) && (k < |tpl| ==> !Passable(b, tpl[k]))
  }

  /** r is the fault of element k if all that waits before it fits, and no fault otherwise. */
  ghost predicate FailsAt(b: Logs, tpl: seq<Elem>, i: nat, k: nat, total: nat, lim: Limits, r: FetchResult)
    requires FirstFault(b, tpl, i, k)
  {
    if k < |tpl| && TakesAll(b, tpl[i..k], total, lim) then r == Fault(b, tpl[k]) else r.Fetched?
  }

  lemma FailsMore(b: Logs, tpl: seq<Elem>, i: nat, k: nat, e: Elem, total: nat, lim: Limits, r: FetchResult)
    requires i < k && FirstFault(b, tpl, i, k)
    requires var size := TotalSize(Waiting(b, tpl[i]));
      && total + size <= lim.total && size <= lim.perPartition
      && FirstFault(b, tpl[i := e], i + 1, k) && FailsAt(b, tpl[i := e], i + 1, k, total + size, lim, r)
    ensures FailsAt(b, tpl, i, k, total, lim, r)
  {
    assert tpl[i..k] == [tpl[i]] + tpl[i + 1..k] && tpl[i := e][i + 1..k] == tpl[i + 1..k];
    TakesAllMore(b, tpl[i], tpl[i + 1..k], total, lim);
  }

  /** A fetch fails exactly if all that waits before its first element that cannot be passed over fits, and
      then that element says how; otherwise the fault goes unnoticed. */
  lemma {:induction false} FetchFailsIff(b: Logs, tpl: seq<Elem>, i: nat, k: nat, rets: seq<Message>, total: nat,
                                         lim: Limits)
    requires Dense(b) && FirstFault(b, tpl, i, k) && total <= lim.total
    ensures FailsAt(b, tpl, i, k, total, lim, FetchFrom(b, tpl, i, rets, total, lim))
    decreases k - i
  {
    if i < k {
      var s := PassTurn(b, tpl, i, rets, total, lim);
      if !s.stopped {
        FetchFailsIff(b, tpl[i := s.elem], i + 1, k, s.rets, s.total, lim);
        FailsMore(b, tpl, i, k, s.elem, total, lim, FetchFrom(b, tpl, i, rets, total, lim));
      }
    } else if k < |tpl| {
      FaultTurn(b, tpl, k, rets, total, lim);
    }
  }
}
