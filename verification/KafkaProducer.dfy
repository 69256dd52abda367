/** The producer: a buffer that is either plain or transactional, never both. */
module KafkaProducer {
  import opened ByteStrings
  import opened KafkaBroker

  datatype Inner = Init | NonTxn(plain: seq<Message>) | InTxn(open: Option<seq<Message>>)

  datatype ProducerConfig = ProducerConfig(hasTransactionalId: bool, maxMessages: nat)

  datatype ProducerOp = Send(msg: Message) | Flush | InitTransactions | Begin | Commit | Abort

  datatype ProducerError = QueueFull | NoTransactionalId | NotFirst | InProgress | NotInitialized | NoTransaction

  datatype Effect =
    | Accepted
    | Took(batch: seq<Message>)   // a batch leaves for the broker
    | Aborted
    | Fine
    | Refused(error: ProducerError)

  datatype ProducerOutcome = Next(inner: Inner, effect: Effect) | SendPanic

  function SendStep(inner: Inner, m: Message, cfg: ProducerConfig): ProducerOutcome {
    match inner
    case Init => if 0 >= cfg.maxMessages then Next(NonTxn([]), Refused(QueueFull)) else Next(NonTxn([m]), Accepted)
    case NonTxn(buffer) =>
      if |buffer| >= cfg.maxMessages then Next(inner, Refused(QueueFull)) else Next(NonTxn(buffer + [m]), Accepted)
    case InTxn(None) => SendPanic
    case InTxn(Some(buffer)) => Next(InTxn(Some(buffer + [m])), Accepted)
  }

  function ProducerStep(inner: Inner, op: ProducerOp, cfg: ProducerConfig): ProducerOutcome {
    match op
    case Send(m) => SendStep(inner, m, cfg)
    case Flush =>
      if inner.NonTxn? && inner.plain != [] then Next(NonTxn([]), Took(inner.plain)) else Next(inner, Fine)
    case InitTransactions =>
      if !cfg.hasTransactionalId then Next(inner, Refused(NoTransactionalId))
      else if inner.Init? then Next(InTxn(None), Fine) else Next(inner, Refused(NotFirst))
    case Begin =>
      if !inner.InTxn? then Next(inner, Refused(NotInitialized))
      else if inner.open.None? then Next(InTxn(Some([])), Fine) else Next(inner, Refused(InProgress))
    case Commit =>
      // the transaction stays open with an empty buffer
      if inner.InTxn? && inner.open.Some? then Next(InTxn(Some([])), Took(inner.open.value))
      else Next(inner, Refused(NoTransaction))
    case Abort =>
      if inner.InTxn? && inner.open.Some? then Next(InTxn(None), Aborted) else Next(inner, Refused(NoTransaction))
  }

  function PendingOf(inner: Inner): seq<Message> {
    match inner
    case Init => []
    case NonTxn(buffer) => buffer
    case InTxn(None) => []
    case InTxn(Some(buffer)) => buffer
  }

  // ---- conservation ----------------------------------------------------------------------

  /** What happened, as the caller can tell from the effects. */
  datatype Entry = Sent(msg: Message) | Taken | Cut

  function EntriesOf(op: ProducerOp, effect: Effect): seq<Entry> {
    if op.Send? && effect.Accepted? then [Sent(op.msg)]
    else if effect.Took? then [Taken]
    else if effect.Aborted? then [Cut]
    else []
  }

  /** An abort reaches back to entry i: no batch was taken in between. */
  ghost predicate CutAway(tr: seq<Entry>, i: nat) {
    exists j :: i < j < |tr| && tr[j].Cut? && forall k :: i < k < j ==> !tr[k].Taken?
  }

  /** The accepted records among the first n entries that no abort cut away, in order. */
  ghost function Live(tr: seq<Entry>, n: nat): seq<Message>
    requires n <= |tr|
  {
    if n == 0 then []
    else Live(tr, n - 1) + if tr[n - 1].Sent? && !CutAway(tr, n - 1) then [tr[n - 1].msg] else []
  }

  datatype ProducerRun = ProducerRun(inner: Inner, out: seq<Message>, trace: seq<Entry>)

  function RunProducer(ops: seq<ProducerOp>, cfg: ProducerConfig): Option<ProducerRun> {
    if ops == [] then Some(ProducerRun(Init, [], []))
    else
      match RunProducer(ops[..|ops| - 1], cfg)
      case None => None
      case Some(r) =>
        var op := ops[|ops| - 1];
        match ProducerStep(r.inner, op, cfg)
        case SendPanic => None
        case Next(inner, effect) =>
          Some(ProducerRun(inner, r.out + (if effect.Took? then effect.batch else []), r.trace + EntriesOf(op, effect)))
  }

  /** Entries from t on contain no taking; those before t account for what was taken, those from t
      on for what is pending. */
  ghost predicate Accounted(r: ProducerRun, t: nat) {
    && t <= |r.trace|
    && (t == 0 || r.trace[t - 1].Taken?)
    && (forall k :: t <= k < |r.trace| ==> !r.trace[k].Taken?)
    && r.out == Live(r.trace, t)
    && r.out + PendingOf(r.inner) == Live(r.trace, |r.trace|)
  }

  lemma {:induction false} LiveSame(tr: seq<Entry>, tr': seq<Entry>, n: nat)
    requires n <= |tr| && n <= |tr'| && tr[..n] == tr'[..n]
    requires forall i :: 0 <= i < n && tr[i].Sent? ==> (CutAway(tr, i) <==> CutAway(tr', i))
    ensures Live(tr, n) == Live(tr', n)
  {
    if n > 0 {
      assert tr[n - 1] == tr[..n][n - 1] && tr'[n - 1] == tr'[..n][n - 1];
      assert tr[..n - 1] == tr[..n][..n - 1] && tr'[..n - 1] == tr'[..n][..n - 1];
      LiveSame(tr, tr', n - 1);
    }
  }

  /** An entry that is no abort cuts nothing. */
  lemma HarmlessEntry(tr: seq<Entry>, x: Entry, i: nat)
    requires i < |tr| && !x.Cut?
    ensures CutAway(tr + [x], i) <==> CutAway(tr, i)
  {
    var tr' := tr + [x];
    if CutAway(tr, i) {
      var j :| i < j < |tr| && tr[j].Cut? && forall k :: i < k < j ==> !tr[k].Taken?;
      assert tr'[j] == tr[j] && forall k :: i < k < j ==> tr'[k] == tr[k];
    }
    if CutAway(tr', i) {
      var j :| i < j < |tr'| && tr'[j].Cut? && forall k :: i < k < j ==> !tr'[k].Taken?;
      assert tr'[j] == tr[j] && forall k :: i < k < j ==> tr'[k] == tr[k];
    }
  }

  lemma LiveMore(tr: seq<Entry>, x: Entry, t: nat)
    requires t <= |tr| && !x.Cut?
    ensures Live(tr + [x], t) == Live(tr, t)
    ensures Live(tr + [x], |tr| + 1) == Live(tr, |tr|) + if x.Sent? then [x.msg] else []
  {
    var tr' := tr + [x];
    forall i | 0 <= i < |tr| ensures CutAway(tr', i) <==> CutAway(tr, i) { HarmlessEntry(tr, x, i); }
    LiveSame(tr, tr', t);
    LiveSame(tr, tr', |tr|);
    assert !CutAway(tr', |tr|);
  }

  /** An abort cuts exactly the records since the last taking. */
  lemma AbortReaches(tr: seq<Entry>, t: nat, i: nat)
    requires t <= |tr| && (t == 0 || tr[t - 1].Taken?) && (forall k :: t <= k < |tr| ==> !tr[k].Taken?)
    requires i < |tr| && tr[i].Sent?
    ensures i < t ==> (CutAway(tr + [Cut], i) <==> CutAway(tr, i))
    ensures i >= t ==> CutAway(tr + [Cut], i)
  {
    var tr' := tr + [Cut];
    if i >= t {
      assert tr'[|tr|].Cut? && forall k :: i < k < |tr| ==> tr'[k] == tr[k] && !tr'[k].Taken?;
    } else {
      if CutAway(tr, i) {
        var j :| i < j < |tr| && tr[j].Cut? && forall k :: i < k < j ==> !tr[k].Taken?;
        assert tr'[j] == tr[j] && forall k :: i < k < j ==> tr'[k] == tr[k];
      }
      if CutAway(tr', i) {
        var j :| i < j < |tr'| && tr'[j].Cut? && forall k :: i < k < j ==> !tr'[k].Taken?;
        assert tr'[t - 1].Taken?;
        assert j < |tr| && tr'[j] == tr[j] && forall k :: i < k < j ==> tr'[k] == tr[k];
      }
    }
  }

  lemma {:induction false} LiveAborted(tr: seq<Entry>, t: nat, n: nat)
    requires t <= n <= |tr| && (t == 0 || tr[t - 1].Taken?) && (forall k :: t <= k < |tr| ==> !tr[k].Taken?)
    ensures Live(tr + [Cut], n) == Live(tr, t)
  {
    var tr' := tr + [Cut];
    if n > t {
      LiveAborted(tr, t, n - 1);
      if tr[n - 1].Sent? { AbortReaches(tr, t, n - 1); }
    } else {
      forall i | 0 <= i < n && tr[i].Sent? ensures CutAway(tr, i) <==> CutAway(tr', i) { AbortReaches(tr, t, i); }
      assert tr[..n] == tr'[..n];
      LiveSame(tr, tr', n);
    }
  }

  /** What each effect means for the pending records. */
  lemma EffectOnPending(inner: Inner, op: ProducerOp, cfg: ProducerConfig)
    requires ProducerStep(inner, op, cfg).Next?
    ensures var o := ProducerStep(inner, op, cfg);
      match o.effect
      case Accepted => op.Send? && PendingOf(o.inner) == PendingOf(inner) + [op.msg]
      case Took(batch) => !op.Send? && batch == PendingOf(inner) && PendingOf(o.inner) == []
      case Aborted => !op.Send? && PendingOf(o.inner) == []
      case _ => PendingOf(o.inner) == PendingOf(inner)
  {
  }

  lemma AccountedSame(r: ProducerRun, t: nat, inner: Inner)
    requires Accounted(r, t) && PendingOf(inner) == PendingOf(r.inner)
    ensures Accounted(ProducerRun(inner, r.out, r.trace + []), t)
  {
    assert r.trace + [] == r.trace;
  }

  lemma AccountedSent(r: ProducerRun, t: nat, inner: Inner, m: Message)
    requires Accounted(r, t) && PendingOf(inner) == PendingOf(r.inner) + [m]
    ensures Accounted(ProducerRun(inner, r.out, r.trace + [Sent(m)]), t)
  {
    LiveMore(r.trace, Sent(m), t);
    assert r.out + PendingOf(inner) == (r.out + PendingOf(r.inner)) + [m];
  }

  lemma AccountedTaken(r: ProducerRun, t: nat, inner: Inner)
    requires Accounted(r, t) && PendingOf(inner) == []
    ensures Accounted(ProducerRun(inner, r.out + PendingOf(r.inner), r.trace + [Taken]), |r.trace| + 1)
  {
    LiveMore(r.trace, Taken, t);
    assert Live(r.trace, |r.trace|) + [] == Live(r.trace, |r.trace|);
    assert (r.out + PendingOf(r.inner)) + [] == r.out + PendingOf(r.inner);
  }

  lemma AccountedCut(r: ProducerRun, t: nat, inner: Inner)
    requires Accounted(r, t) && PendingOf(inner) == []
    ensures Accounted(ProducerRun(inner, r.out, r.trace + [Cut]), t)
  {
    var tr := r.trace;
    LiveAborted(tr, t, t);
    LiveAborted(tr, t, |tr|);
    assert Live(tr + [Cut], |tr| + 1) == Live(tr + [Cut], |tr|) + [];
    assert r.out + [] == r.out;
  }

  /** One step, by what it adds to the trace. */
  lemma AccountedNext(r: ProducerRun, t: nat, op: ProducerOp, cfg: ProducerConfig) returns (t': nat)
    requires Accounted(r, t) && ProducerStep(r.inner, op, cfg).Next?
    ensures var o := ProducerStep(r.inner, op, cfg);
      var batch := if o.effect.Took? then o.effect.batch else [];
      Accounted(ProducerRun(o.inner, r.out + batch, r.trace + EntriesOf(op, o.effect)), t')
  {
    var o := ProducerStep(r.inner, op, cfg);
    EffectOnPending(r.inner, op, cfg);
    assert r.out + [] == r.out;
    t' := t;
    match o.effect
    case Accepted => AccountedSent(r, t, o.inner, op.msg);
    case Took(batch) =>
      AccountedTaken(r, t, o.inner);
      t' := |r.trace| + 1;
    case Aborted => AccountedCut(r, t, o.inner);
    case _ => AccountedSame(r, t, o.inner);
  }

  /** Conservation: after any operations, what was taken for sending followed by what is pending is
      exactly the accepted records, in order, without those an abort cut away. */
  lemma {:induction false} Conservation(ops: seq<ProducerOp>, cfg: ProducerConfig) returns (t: nat)
    requires RunProducer(ops, cfg).Some?
    ensures Accounted(RunProducer(ops, cfg).value, t)
    ensures var r := RunProducer(ops, cfg).value; r.out + PendingOf(r.inner) == Live(r.trace, |r.trace|)
  {
    if ops == [] {
      t := 0;
    } else {
      var t0 := Conservation(ops[..|ops| - 1], cfg);
      t := AccountedNext(RunProducer(ops[..|ops| - 1], cfg).value, t0, ops[|ops| - 1], cfg);
    }
  }

  lemma {:induction false} RunPrefix(ops: seq<ProducerOp>, cfg: ProducerConfig, n: nat)
    requires n <= |ops| && RunProducer(ops, cfg).Some?
    ensures RunProducer(ops[..n], cfg).Some?
    decreases |ops|
  {
    if n < |ops| {
      RunPrefix(ops[..|ops| - 1], cfg, n);
      assert ops[..|ops| - 1][..n] == ops[..n];
    } else {
      assert ops[..n] == ops;
    }
  }

  lemma StepModes(inner: Inner, op: ProducerOp, cfg: ProducerConfig)
    requires ProducerStep(inner, op, cfg).Next?
    requires inner.InTxn? ==> cfg.hasTransactionalId
    requires inner.NonTxn? ==> |inner.plain| <= cfg.maxMessages
    ensures var after := ProducerStep(inner, op, cfg).inner;
      && (inner.NonTxn? ==> after.NonTxn?) && (inner.InTxn? ==> after.InTxn?)
      && (after.InTxn? ==> cfg.hasTransactionalId)
      && (after.NonTxn? ==> |after.plain| <= cfg.maxMessages)
  {
  }

  /** Once plain always plain, once transactional always transactional; a producer without a
      transactional id never becomes transactional; the plain buffer keeps within its maximum. */
  lemma {:induction false} ModesAreFinal(ops: seq<ProducerOp>, cfg: ProducerConfig, n: nat)
    requires n <= |ops| && RunProducer(ops, cfg).Some?
    ensures RunProducer(ops[..n], cfg).Some?
    ensures var before := RunProducer(ops[..n], cfg).value.inner; var after := RunProducer(ops, cfg).value.inner;
      && (before.NonTxn? ==> after.NonTxn?) && (before.InTxn? ==> after.InTxn?)
      && (after.InTxn? ==> cfg.hasTransactionalId)
      && (after.NonTxn? ==> |after.plain| <= cfg.maxMessages)
    decreases |ops|
  {
    RunPrefix(ops, cfg, n);
    if n < |ops| {
      ModesAreFinal(ops[..|ops| - 1], cfg, n);
      assert ops[..|ops| - 1][..n] == ops[..n];
      StepModes(RunProducer(ops[..|ops| - 1], cfg).value.inner, ops[|ops| - 1], cfg);
    } else {
      assert ops[..n] == ops;
      if ops != [] {
        ModesAreFinal(ops[..|ops| - 1], cfg, |ops| - 1);
        StepModes(RunProducer(ops[..|ops| - 1], cfg).value.inner, ops[|ops| - 1], cfg);
      }
    }
  }

  // ---- what each operation is answered, by the history alone -----------------------------

  /** The answers to the operations of a run. */
  function Effects(ops: seq<ProducerOp>, cfg: ProducerConfig): (r: seq<Effect>)
    requires RunProducer(ops, cfg).Some?
    ensures |r| == |ops|
  {
    if ops == [] then []
    else
      var n := |ops| - 1;
      Effects(ops[..n], cfg) + [ProducerStep(RunProducer(ops[..n], cfg).value.inner, ops[n], cfg).effect]
  }

  /** Transactions were initialized. */
  ghost predicate Transactional(ops: seq<ProducerOp>, effects: seq<Effect>)
    requires |ops| == |effects|
  {
    exists i :: 0 <= i < |ops| && ops[i].InitTransactions? && effects[i].Fine?
  }

  /** A record was sent, accepted or not, or transactions were initialized. */
  ghost predicate Used(ops: seq<ProducerOp>, effects: seq<Effect>)
    requires |ops| == |effects|
  {
    Transactional(ops, effects) || exists i :: 0 <= i < |ops| && ops[i].Send?
  }

  /** A transaction was begun and has not been aborted since; committing does not end it. */
  ghost predicate Ongoing(ops: seq<ProducerOp>, effects: seq<Effect>)
    requires |ops| == |effects|
  {
    exists i :: 0 <= i < |ops| && ops[i].Begin? && effects[i].Fine? &&
      forall j :: i < j < |ops| ==> !effects[j].Aborted?
  }

  lemma HistoryMore(ops: seq<ProducerOp>, op: ProducerOp, cfg: ProducerConfig)
    requires RunProducer(ops + [op], cfg).Some?
    ensures RunProducer(ops, cfg).Some?
    ensures var r := RunProducer(ops, cfg).value; var o := ProducerStep(r.inner, op, cfg);
      && o.Next? && Effects(ops + [op], cfg) == Effects(ops, cfg) + [o.effect]
      && RunProducer(ops + [op], cfg).value ==
           ProducerRun(o.inner, r.out + (if o.effect.Took? then o.effect.batch else []),
                       r.trace + EntriesOf(op, o.effect))
  {
    assert (ops + [op])[..|ops + [op]| - 1] == ops;
  }

  lemma OngoingMore(ops: seq<ProducerOp>, effects: seq<Effect>, op: ProducerOp, effect: Effect)
    requires |ops| == |effects|
    ensures Ongoing(ops + [op], effects + [effect]) <==>
      (op.Begin? && effect.Fine?) || (Ongoing(ops, effects) && !effect.Aborted?)
  {
    var n, ops', es := |ops|, ops + [op], effects + [effect];
    if Ongoing(ops', es) {
      var i :| 0 <= i <= n && ops'[i].Begin? && es[i].Fine? && forall j :: i < j <= n ==> !es[j].Aborted?;
      if i < n { assert ops[i].Begin? && forall j :: i < j < n ==> es[j] == effects[j]; }
    }
    if Ongoing(ops, effects) && !effect.Aborted? {
      var i :| 0 <= i < n && ops[i].Begin? && effects[i].Fine? && forall j :: i < j < n ==> !effects[j].Aborted?;
      assert ops'[i].Begin? && forall j :: i < j < n ==> es[j] == effects[j];
    }
    assert ops'[n] == op && es[n] == effect;
  }

  /** What one more operation adds to the history. */
  lemma HistoryNext(ops: seq<ProducerOp>, effects: seq<Effect>, op: ProducerOp, effect: Effect)
    requires |ops| == |effects|
    ensures var ops', es := ops + [op], effects + [effect]; var initialized := op.InitTransactions? && effect.Fine?;
      && (Transactional(ops', es) <==> Transactional(ops, effects) || initialized)
      && (Used(ops', es) <==> Used(ops, effects) || op.Send? || initialized)
      && (Ongoing(ops', es) <==> (op.Begin? && effect.Fine?) || (Ongoing(ops, effects) && !effect.Aborted?))
  {
    var n, ops', es := |ops|, ops + [op], effects + [effect];
    OngoingMore(ops, effects, op, effect);
    assert ops'[n] == op && es[n] == effect;
    assert forall i :: 0 <= i < n ==> ops'[i] == ops[i] && es[i] == effects[i];
  }

  /** The history decides the mode. */
  lemma {:induction false} ModeByHistory(ops: seq<ProducerOp>, cfg: ProducerConfig)
    requires RunProducer(ops, cfg).Some?
    ensures var inner := RunProducer(ops, cfg).value.inner;
      && (inner.Init? <==> !Used(ops, Effects(ops, cfg))) && (inner.InTxn? <==> Transactional(ops, Effects(ops, cfg)))
      && (inner.InTxn? && inner.open.Some? <==> Ongoing(ops, Effects(ops, cfg)))
  {
    if ops != [] {
      var init, last := ops[..|ops| - 1], ops[|ops| - 1];
      assert ops == init + [last];
      HistoryMore(init, last, cfg);
      ModeByHistory(init, cfg);
      HistoryNext(init, Effects(init, cfg), last, Effects(ops, cfg)[|init|]);
    }
  }

  /** What an operation owes its caller: the answer, and what is pending afterwards. */
  ghost predicate Answers(op: ProducerOp, cfg: ProducerConfig, used: bool, transactional: bool, ongoing: bool,
                          pending: seq<Message>, effect: Effect, after: seq<Message>)
  {
    match op
    case Send(m) =>
      if !transactional && |pending| >= cfg.maxMessages then effect == Refused(QueueFull) && after == pending
      else effect == Accepted && after == pending + [m]
    case Flush =>
      if !transactional && pending != [] then effect == Took(pending) && after == []
      else effect == Fine && after == pending
    case InitTransactions =>
      && after == pending
      && effect == (if !cfg.hasTransactionalId then Refused(NoTransactionalId)
                    else if used then Refused(NotFirst) else Fine)
    case Begin =>
      && after == pending
      && effect == (if !transactional then Refused(NotInitialized)
                    else if ongoing then Refused(InProgress) else Fine)
    case Commit =>
      if ongoing then effect == Took(pending) && after == []
      else effect == Refused(NoTransaction) && after == pending
    case Abort =>
      if ongoing then effect == Aborted && after == [] else effect == Refused(NoTransaction) && after == pending
  }

  lemma StepAnswers(inner: Inner, op: ProducerOp, cfg: ProducerConfig)
    ensures var o := ProducerStep(inner, op, cfg); var ongoing := inner.InTxn? && inner.open.Some?;
      && (o.SendPanic? <==> op.Send? && inner.InTxn? && !ongoing)
      && (o.Next? ==>
            Answers(op, cfg, !inner.Init?, inner.InTxn?, ongoing, PendingOf(inner), o.effect, PendingOf(o.inner)))
  {
    if op.Send? && inner.Init? { assert [] + [op.msg] == [op.msg]; }
  }

  /** How each operation is answered, from what was asked and answered before: a send between transactions
      panics, and nothing else does. */
  lemma {:induction false} AnswersByHistory(ops: seq<ProducerOp>, op: ProducerOp, cfg: ProducerConfig)
    requires RunProducer(ops, cfg).Some?
    ensures var es := Effects(ops, cfg); var pending := PendingOf(RunProducer(ops, cfg).value.inner);
      var o := RunProducer(ops + [op], cfg);
      && (o.None? <==> op.Send? && Transactional(ops, es) && !Ongoing(ops, es))
      && (o.Some? ==>
            Answers(op, cfg, Used(ops, es), Transactional(ops, es), Ongoing(ops, es), pending,
                    Effects(ops + [op], cfg)[|ops|], PendingOf(o.value.inner)))
  {
    ModeByHistory(ops, cfg);
    StepAnswers(RunProducer(ops, cfg).value.inner, op, cfg);
    assert (ops + [op])[..|ops + [op]| - 1] == ops;
    if RunProducer(ops + [op], cfg).Some? { HistoryMore(ops, op, cfg); }
  }

  /** A flush of a plain producer leaves nothing behind: everything accepted has been taken.  So does a
      commit, of everything but what was aborted, and its transaction goes on. */
  lemma {:induction false} FlushTakesAll(ops: seq<ProducerOp>, op: ProducerOp, cfg: ProducerConfig)
    requires RunProducer(ops, cfg).Some?
    requires (op.Flush? && !Transactional(ops, Effects(ops, cfg))) || (op.Commit? && Ongoing(ops, Effects(ops, cfg)))
    ensures RunProducer(ops + [op], cfg).Some?
    ensures var r := RunProducer(ops + [op], cfg).value;
      && PendingOf(r.inner) == [] && r.out == Live(r.trace, |r.trace|)
      && r.out == RunProducer(ops, cfg).value.out + PendingOf(RunProducer(ops, cfg).value.inner)
      && (op.Flush? ==> (Effects(ops + [op], cfg)[|ops|].Took? <==> PendingOf(RunProducer(ops, cfg).value.inner) != []))
      && (op.Commit? ==> Effects(ops + [op], cfg)[|ops|].Took? && Ongoing(ops + [op], Effects(ops + [op], cfg)))
  {
    AnswersByHistory(ops, op, cfg);
    HistoryMore(ops, op, cfg);
    HistoryNext(ops, Effects(ops, cfg), op, Effects(ops + [op], cfg)[|ops|]);
    var t := Conservation(ops + [op], cfg);
    var r := RunProducer(ops + [op], cfg).value;
    assert r.out + [] == r.out;
    var before := RunProducer(ops, cfg).value;
    assert before.out + [] == before.out;
  }
}
