// Which retransmissions carry the resend flag.  A requirement wants all of them to; the code sets the flag
// for failed sends, and a send cut off by a restart is not one.

module DeliveryResends {
  import opened Outcomes
  import opened Sequences
  import opened EdgeBuffer
  import opened MesLedger
  import opened Delivery
  import opened DeliveryInvariant
  import opened DeliverySteps
  import opened DeliveryIngest
  import opened DeliveryQueue
  import opened DeliverySample
  import opened DeliveryTheorems

  /** How a send ended: it has not, the answer came, it failed, or a restart cut it off. */
  datatype Ending = Out | Answered | Failing | Cut

  /** `failures`: how many sends had failed when this one was made. */
  datatype Sent = Sent(failures: nat, ending: Ending)

  function Ended(sends: seq<Sent>, p: nat, ending: Ending): seq<Sent> {
    if p < |sends| then sends[p := sends[p].(ending := ending)] else sends
  }

  /** What an action adds to the record of sends. */
  function Recorded(c: Config, s: State, sends: seq<Sent>, a: Action): seq<Sent> {
    match a
    case Send => if |Step(c, s, a).net| > |s.net| then sends + [Sent(s.hist.failures, Out)] else sends
    case Acknowledge =>
      if s.sender.Waiting? && Step(c, s, a).sender == Idle then Ended(sends, s.sender.req, Answered) else sends
    case Fail => if s.sender.Waiting? then Ended(sends, s.sender.req, Failing) else sends
    case EdgeRestart => if s.sender.Waiting? then Ended(sends, s.sender.req, Cut) else sends
    case _ => sends
  }

  /** The record of all sends of a run, in the order of the requests on the wire. */
  function Sends(c: Config, acts: seq<Action>): seq<Sent> {
    if acts == [] then []
    else
      var n := |acts| - 1;
      Recorded(c, Run(c, acts[..n]), Sends(c, acts[..n]), acts[n])
  }

  // ---------- the invariant ----------

  /** Which items of a request are flagged, told by their births and the failures before the send. */
  ghost predicate FlagsSent(born: seq<Birth>, items: seq<Item>, failures: nat) {
    forall m :: 0 <= m < |items| ==>
                  && 1 <= items[m].id <= |born| && born[items[m].id - 1].failures <= failures
                  && (items[m].resend <==> born[items[m].id - 1].down || born[items[m].id - 1].failures < failures)
  }

  ghost predicate AllFlags(born: seq<Birth>, net: seq<seq<Item>>, sends: seq<Sent>) {
    |sends| == |net| && forall p :: 0 <= p < |net| ==> FlagsSent(born, net[p], sends[p].failures)
  }

  /** The failures recorded never decrease, and a send that failed is counted from then on. */
  ghost predicate Counted(sends: seq<Sent>, failures: nat) {
    && (forall p :: 0 <= p < |sends| ==>
          && sends[p].failures <= failures && (sends[p].ending == Failing ==> sends[p].failures < failures))
    && (forall p, q :: 0 <= p < q < |sends| ==>
          && sends[p].failures <= sends[q].failures
          && (sends[p].ending == Failing ==> sends[p].failures < sends[q].failures))
  }

  /** The send under way is the last one. */
  ghost predicate UnderWay(sends: seq<Sent>, sender: Sender) {
    && (sender.Waiting? ==> sender.req + 1 == |sends|)
    && (forall p :: 0 <= p < |sends| ==> (sends[p].ending == Out <==> sender.Waiting? && sender.req == p))
  }

  /** What has been answered is no longer queued. */
  ghost predicate AnsweredGone(net: seq<seq<Item>>, sends: seq<Sent>, pending: set<nat>) {
    |sends| == |net| && forall p :: 0 <= p < |net| && sends[p].ending == Answered ==> Ids(net[p]) !! pending
  }

  /** Only a send that failed or was cut off is repeated. */
  ghost predicate RepeatsEnded(net: seq<seq<Item>>, sends: seq<Sent>) {
    |sends| == |net|
    && forall p, q :: 0 <= p < q < |net| && !(Ids(net[p]) !! Ids(net[q])) ==> sends[p].ending == Failing || sends[p].ending == Cut
  }

  ghost predicate SendsOk(s: State, sends: seq<Sent>) {
    && AllFlags(s.hist.born, s.net, sends) && Counted(sends, s.hist.failures) && UnderWay(sends, s.sender)
    && AnsweredGone(s.net, sends, PendingIds(s.queue.rows)) && RepeatsEnded(s.net, sends)
  }

  // ---------- a send ----------

  lemma RowBirths(c: Config, s: State, r: Row, l: nat, m: nat)
    requires Inv(c, s) && RowOk(s.hist.born, r) && l < |r.items| && m < |r.items|
    ensures 1 <= r.items[l].id <= |s.hist.born| && 1 <= r.items[m].id <= |s.hist.born|
    ensures SameSample(s.hist.born[r.items[l].id - 1], s.hist.born[r.items[m].id - 1])
  {
    hide Inv, RowOk, SameSample;
    RowOfMessage(s.hist.born, r, l);
    RowOfMessage(s.hist.born, r, m);
    SameBirth(c, s, r.items[l].id, r.items[m].id);
  }

  lemma ItemFlag(c: Config, s: State, r: Row, m: nat)
    requires Inv(c, s) && r in s.queue.rows && m < |r.items|
    ensures 1 <= r.items[m].id <= |s.hist.born|
    ensures var b := s.hist.born[r.items[m].id - 1];
            b.failures <= s.hist.failures && (Flag(r) <==> b.down || b.failures < s.hist.failures)
  {
    hide Inv, RowOk, Flag;
    RowFlag(c, s, r);
    RowFailures(c, s, r);
    RowBirths(c, s, r, 0, m);
  }

  lemma RowFlagsSent(c: Config, s: State, r: Row)
    requires Inv(c, s) && r in s.queue.rows
    ensures FlagsSent(s.hist.born, Flagged(r), s.hist.failures)
  {
    hide Inv, Flag;
    var items := Flagged(r);
    forall m | 0 <= m < |items|
      ensures items[m].id == r.items[m].id && items[m].resend == Flag(r)
      ensures 1 <= r.items[m].id <= |s.hist.born| && s.hist.born[r.items[m].id - 1].failures <= s.hist.failures
      ensures Flag(r) <==> s.hist.born[r.items[m].id - 1].down || s.hist.born[r.items[m].id - 1].failures < s.hist.failures
    {
      ItemFlag(c, s, r, m);
    }
    hide Flagged;
  }

  lemma RowFailures(c: Config, s: State, r: Row)
    requires Inv(c, s) && r in s.queue.rows
    ensures RowOk(s.hist.born, r) && r.items != [] && 1 <= r.items[0].id <= |s.hist.born|
    ensures s.hist.born[r.items[0].id - 1].failures <= s.hist.failures
  {
    hide BornOk, Covered, LostOk, NetOk, LogOk, LedgerOk, AnswersOk, SenderOk, CountsOk;
    var m :| 0 <= m < |s.queue.rows| && s.queue.rows[m] == r;
    assert RowOk(s.hist.born, s.queue.rows[m]) && RowFlagsOk(s.hist, s.queue.rows[m]);
  }

  lemma SameBirth(c: Config, s: State, i: nat, j: nat)
    requires Inv(c, s) && SameRow(s.hist.born, i, j)
    ensures SameSample(s.hist.born[i - 1], s.hist.born[j - 1])
  {
  }

  lemma FlagsAppend(born: seq<Birth>, a: seq<Item>, b: seq<Item>, failures: nat)
    requires FlagsSent(born, a, failures) && FlagsSent(born, b, failures)
    ensures FlagsSent(born, a + b, failures)
  {
  }

  lemma {:induction false} PayloadFlagsSent(c: Config, s: State, batch: seq<Row>)
    requires Inv(c, s) && forall r :: r in batch ==> r in s.queue.rows
    ensures FlagsSent(s.hist.born, Payload(batch), s.hist.failures)
  {
    hide Inv, Flagged;
    if batch == [] {
      NoFlags(s.hist.born, s.hist.failures);
    } else {
      var n := |batch| - 1;
      assert batch[n] in batch && forall r :: r in batch[..n] ==> r in batch;
      PayloadFlagsSent(c, s, batch[..n]);
      hide FlagsSent;
      RowFlagsSent(c, s, batch[n]);
      FlagsAppend(s.hist.born, Payload(batch[..n]), Flagged(batch[n]), s.hist.failures);
    }
  }

  lemma NoFlags(born: seq<Birth>, failures: nat)
    ensures FlagsSent(born, [], failures)
  {
  }

  lemma BatchFromQueue(c: Config, s: State)
    requires Inv(c, s)
    ensures forall r :: r in NextBatch(c, s) ==> r in s.queue.rows
  {
    RowsDistinct(s.hist.born, s.queue.rows);
    BatchIsFront(s.queue.rows, c.batchMax);
    hide Batch;
  }

  lemma CountedSend(sends: seq<Sent>, failures: nat)
    requires Counted(sends, failures)
    ensures Counted(sends + [Sent(failures, Out)], failures)
  {
  }

  lemma UnderWaySend(sends: seq<Sent>, failures: nat, batch: seq<Row>)
    requires UnderWay(sends, Idle)
    ensures UnderWay(sends + [Sent(failures, Out)], Waiting(|sends|, batch))
  {
  }

  lemma AllFlagsSend(born: seq<Birth>, net: seq<seq<Item>>, sends: seq<Sent>, items: seq<Item>, failures: nat)
    requires AllFlags(born, net, sends) && FlagsSent(born, items, failures)
    ensures AllFlags(born, net + [items], sends + [Sent(failures, Out)])
  {
    hide FlagsSent;
  }

  lemma AnsweredSend(net: seq<seq<Item>>, sends: seq<Sent>, pending: set<nat>, items: seq<Item>, failures: nat)
    requires AnsweredGone(net, sends, pending)
    ensures AnsweredGone(net + [items], sends + [Sent(failures, Out)], pending)
  {
    hide Ids;
  }

  lemma RepeatsSend(net: seq<seq<Item>>, sends: seq<Sent>, pending: set<nat>, items: seq<Item>, failures: nat)
    requires RepeatsEnded(net, sends) && AnsweredGone(net, sends, pending) && UnderWay(sends, Idle) && Ids(items) <= pending
    ensures RepeatsEnded(net + [items], sends + [Sent(failures, Out)])
  {
    hide Ids;
  }

  lemma SendRecorded(c: Config, s: State, sends: seq<Sent>)
    requires Inv(c, s) && SendsOk(s, sends)
    ensures SendsOk(Step(c, s, Send), Recorded(c, s, sends, Send))
  {
    if s.sender == Idle && NextBatch(c, s) != [] {
      var batch := NextBatch(c, s);
      BatchFromQueue(c, s);
      PayloadFlagsSent(c, s, batch);
      hide Inv, NextBatch, Payload, PendingIds, FlagsSent, AllFlags, Counted, UnderWay, AnsweredGone, RepeatsEnded, Ids;
      PayloadIds(batch);
      PendingOfSubset(batch, s.queue.rows);
      assert |sends| == |s.net| by { assert AllFlags(s.hist.born, s.net, sends); SameLength(s.hist.born, s.net, sends); }
      CountedSend(sends, s.hist.failures);
      UnderWaySend(sends, s.hist.failures, batch);
      AllFlagsSend(s.hist.born, s.net, sends, Payload(batch), s.hist.failures);
      AnsweredSend(s.net, sends, PendingIds(s.queue.rows), Payload(batch), s.hist.failures);
      RepeatsSend(s.net, sends, PendingIds(s.queue.rows), Payload(batch), s.hist.failures);
    }
  }

  lemma SameLength(born: seq<Birth>, net: seq<seq<Item>>, sends: seq<Sent>)
    requires AllFlags(born, net, sends)
    ensures |sends| == |net|
  {
  }

  // ---------- the end of a send ----------

  lemma EndedOk(born: seq<Birth>, net: seq<seq<Item>>, sends: seq<Sent>, p: nat, ending: Ending, pending: set<nat>,
                failures: nat, sender: Sender)
    requires AllFlags(born, net, sends) && Counted(sends, failures) && UnderWay(sends, sender)
    requires AnsweredGone(net, sends, pending) && RepeatsEnded(net, sends)
    requires sender.Waiting? && sender.req == p && ending != Out && (ending == Answered ==> p < |net| && Ids(net[p]) !! pending)
    ensures var e := Ended(sends, p, ending);
            && AllFlags(born, net, e) && UnderWay(e, Idle) && AnsweredGone(net, e, pending) && RepeatsEnded(net, e)
            && Counted(e, if ending == Failing then failures + 1 else failures)
  {
    hide FlagsSent, Ids;
  }

  lemma LessPending(net: seq<seq<Item>>, sends: seq<Sent>, pending: set<nat>, fewer: set<nat>)
    requires AnsweredGone(net, sends, pending) && fewer <= pending
    ensures AnsweredGone(net, sends, fewer)
  {
    hide Ids;
  }

  lemma MoreFailures(sends: seq<Sent>, failures: nat, more: nat)
    requires Counted(sends, failures) && failures <= more
    ensures Counted(sends, more)
  {
  }

  lemma MarkedPending(c: Config, s: State)
    requires Inv(c, s)
    ensures PendingIds(Marked(s.queue.rows)) == PendingIds(s.queue.rows)
  {
    MarkedRows(s.hist.born, s.queue.rows);
  }

  lemma FailRecorded(c: Config, s: State, sends: seq<Sent>)
    requires Inv(c, s) && SendsOk(s, sends)
    ensures s.sender.Waiting? ==> SendsOk(Failed(s), Ended(sends, s.sender.req, Failing))
    ensures s.sender == Idle ==> SendsOk(Failed(s), sends)
  {
    MarkedPending(c, s);
    hide Inv, PendingIds, Marked, AllFlags, Counted, UnderWay, AnsweredGone, RepeatsEnded, Ids, Ended;
    if s.sender.Waiting? {
      EndedOk(s.hist.born, s.net, sends, s.sender.req, Failing, PendingIds(s.queue.rows), s.hist.failures, s.sender);
    } else {
      MoreFailures(sends, s.hist.failures, s.hist.failures + 1);
    }
  }

  lemma RestartRecorded(c: Config, s: State, sends: seq<Sent>)
    requires SendsOk(s, sends)
    ensures SendsOk(Step(c, s, EdgeRestart), Recorded(c, s, sends, EdgeRestart))
  {
    hide PendingIds, AllFlags, Counted, UnderWay, AnsweredGone, RepeatsEnded, Ids, Ended;
    if s.sender.Waiting? {
      EndedOk(s.hist.born, s.net, sends, s.sender.req, Cut, PendingIds(s.queue.rows), s.hist.failures, s.sender);
    }
  }

  lemma AckedIds(c: Config, s: State)
    requires Inv(c, s) && s.sender.Waiting? && Acknowledged(s).sender == Idle
    ensures s.sender.req < |s.net|
    ensures PendingIds(Acknowledged(s).queue.rows) == PendingIds(s.queue.rows) - Ids(s.net[s.sender.req])
    ensures Acknowledged(s).hist.failures == s.hist.failures && Acknowledged(s).hist.born == s.hist.born
    ensures Acknowledged(s).net == s.net
  {
    var batch := s.sender.batch;
    assert s.net[s.sender.req] == Payload(batch) && InFlightOk(batch, Payload(batch), s.queue, s.hist);
    hide BornOk, RowsOk, Covered, LostOk, NetOk, LogOk, LedgerOk, CountsOk, FlagsOk, PendingIds, Payload, AllAccepted,
         InFlightOk, Filter, Ids;
    AckedPending(s, batch, Payload(batch));
  }

  lemma AckRecorded(c: Config, s: State, sends: seq<Sent>)
    requires Inv(c, s) && SendsOk(s, sends)
    ensures SendsOk(Step(c, s, Acknowledge), Recorded(c, s, sends, Acknowledge))
  {
    hide Inv, PendingIds, AllFlags, Counted, UnderWay, AnsweredGone, RepeatsEnded, Ids, Ended, Acknowledged;
    if s.sender.Waiting? && Acknowledged(s).sender == Idle {
      AckedIds(c, s);
      var fewer := PendingIds(Acknowledged(s).queue.rows);
      LessPending(s.net, sends, PendingIds(s.queue.rows), fewer);
      EndedOk(s.hist.born, s.net, sends, s.sender.req, Answered, fewer, s.hist.failures, s.sender);
    } else {
      NotAcked(s);
    }
  }

  lemma NotAcked(s: State)
    requires !(s.sender.Waiting? && Acknowledged(s).sender == Idle)
    ensures Acknowledged(s) == s
  {
  }

  // ---------- other steps ----------

  lemma FlagsGrow(born: seq<Birth>, more: seq<Birth>, net: seq<seq<Item>>, sends: seq<Sent>)
    requires AllFlags(born, net, sends) && born <= more
    ensures AllFlags(more, net, sends)
  {
    forall p | 0 <= p < |net|
      ensures FlagsSent(more, net[p], sends[p].failures)
    {
      assert FlagsSent(born, net[p], sends[p].failures);
    }
  }

  lemma NewPending(born: seq<Birth>, net: seq<seq<Item>>, sends: seq<Sent>, pending: set<nat>, more: set<nat>)
    requires AllFlags(born, net, sends) && AnsweredGone(net, sends, pending)
    requires forall i :: i in more ==> i in pending || i > |born|
    ensures AnsweredGone(net, sends, more)
  {
    forall p | 0 <= p < |net| && sends[p].ending == Answered
      ensures Ids(net[p]) !! more
    {
      assert FlagsSent(born, net[p], sends[p].failures);
    }
  }

  lemma SampleRecorded(c: Config, s: State, sends: seq<Sent>, sample: Sample, now: int)
    requires Inv(c, s) && SendsOk(s, sends)
    ensures SendsOk(TakeSample(s, sample, now), sends)
  {
    if sample.readings != [] {
      var r, t := NewRow(s, sample, now), TakeSample(s, sample, now);
      InvBornOk(c, s);
      SampleShape(c, s, sample, now);
      EntersIds(s.hist.born, t.hist.born, s.queue, r, s.hist.failures, s.link == Down);
      EntersPrefix(s.hist.born, t.hist.born, s.queue, r, s.hist.failures, s.link == Down);
      hide Inv, PendingIds, AllFlags, Counted, UnderWay, AnsweredGone, RepeatsEnded, Ids, TakeSample, NewRow, Enters;
      PendingSplit(s.queue.rows, r);
      FlagsGrow(s.hist.born, t.hist.born, s.net, sends);
      NewPending(s.hist.born, s.net, sends, PendingIds(s.queue.rows), PendingIds(t.queue.rows));
    }
  }

  lemma InvBornOk(c: Config, s: State)
    requires Inv(c, s)
    ensures BornOk(s.hist.born, s.queue)
  {
  }

  lemma EntersPrefix(born: seq<Birth>, more: seq<Birth>, q: Queue, r: Row, failures: nat, down: bool)
    requires Enters(born, more, q, r, failures, down)
    ensures born <= more
  {
  }

  lemma PurgeFewer(c: Config, s: State, cut: int)
    requires Inv(c, s)
    ensures PendingIds(PurgedAtEdge(s, cut).queue.rows) <= PendingIds(s.queue.rows)
  {
    PurgedShape(s.hist.born, s.queue, cut);
    RowsFiltered(s.hist.born, s.queue.rows, (r: Row) => r.created >= cut);
    hide Inv, RowsOk, PendingIds, Filter;
  }

  lemma PurgeRecorded(c: Config, s: State, sends: seq<Sent>, cut: int)
    requires Inv(c, s) && SendsOk(s, sends)
    ensures SendsOk(PurgedAtEdge(s, cut), sends)
  {
    PurgeFewer(c, s, cut);
    hide Inv, PendingIds, AllFlags, Counted, UnderWay, AnsweredGone, RepeatsEnded, Ids, Purged, Old;
    LessPending(s.net, sends, PendingIds(s.queue.rows), PendingIds(PurgedAtEdge(s, cut).queue.rows));
  }

  lemma StepRecorded(c: Config, s: State, sends: seq<Sent>, a: Action)
    requires Inv(c, s) && SendsOk(s, sends)
    ensures SendsOk(Step(c, s, a), Recorded(c, s, sends, a))
  {
    hide Inv, StartSend, Failed, Acknowledged, PurgedAtEdge, TakeSample, NextBatch, PendingIds, AllFlags, Counted,
         UnderWay, AnsweredGone, RepeatsEnded, Fresh, Ids, Filter, Ended;
    match a
    case Sampled(sample, now) => SampleRecorded(c, s, sends, sample, now);
    case Send => SendRecorded(c, s, sends);
    case LinkFault => FailRecorded(c, s, sends);
    case Process(req) =>
    case Acknowledge => AckRecorded(c, s, sends);
    case Fail => FailRecorded(c, s, sends);
    case EdgePurge(cut) => PurgeRecorded(c, s, sends, cut);
    case EdgeRestart => RestartRecorded(c, s, sends);
    case MesPurge(cutoff) =>
  }

  lemma NothingSent()
    ensures SendsOk(INITIAL, [])
  {
  }

  lemma {:induction false} SendsFit(c: Config, acts: seq<Action>)
    ensures SendsOk(Run(c, acts), Sends(c, acts))
  {
    hide Inv, Step, SendsOk, Recorded;
    if acts == [] {
      NothingSent();
    } else {
      var n := |acts| - 1;
      SendsFit(c, acts[..n]);
      RunKeeps(c, acts[..n]);
      StepRecorded(c, Run(c, acts[..n]), Sends(c, acts[..n]), acts[n]);
    }
  }

  // ---------- the theorems ----------

  lemma FlagChange(born: seq<Birth>, x: Item, y: Item, f: nat, g: nat, items: seq<Item>, others: seq<Item>)
    requires FlagsSent(born, items, f) && FlagsSent(born, others, g) && x in items && y in others && x.id == y.id && f <= g
    ensures y.resend <==> x.resend || f < g
  {
    var l :| 0 <= l < |items| && items[l] == x;
    var m :| 0 <= m < |others| && others[m] == y;
  }

  /** In every run, of two requests that carry the same message the later one flags it exactly when the
      earlier one did or a send has failed in between; and a send that is repeated had failed or been
      cut off by a restart. */
  lemma ResendIsExact(c: Config, acts: seq<Action>, p: nat, q: nat, x: Item, y: Item)
    requires p < q < |Run(c, acts).net| && x in Run(c, acts).net[p] && y in Run(c, acts).net[q] && x.id == y.id
    ensures |Sends(c, acts)| == |Run(c, acts).net|
    ensures var sends := Sends(c, acts);
            && (y.resend <==> x.resend || sends[p].failures < sends[q].failures)
            && (sends[p].ending == Failing || sends[p].ending == Cut)
            && (sends[p].ending == Failing ==> sends[p].failures < sends[q].failures)
  {
    hide Run, Sends, FlagsSent, PendingIds;
    SendsFit(c, acts);
    var s, sends := Run(c, acts), Sends(c, acts);
    assert FlagsSent(s.hist.born, s.net[p], sends[p].failures) && FlagsSent(s.hist.born, s.net[q], sends[q].failures);
    FlagChange(s.hist.born, x, y, sends[p].failures, sends[q].failures, s.net[p], s.net[q]);
    InIds(s.net[p], x);
    InIds(s.net[q], y);
  }

  /** A message goes out again unflagged only if every earlier request that carried it was cut off by a
      restart, with no failed send since. */
  lemma UnflaggedRepeatWasCut(c: Config, acts: seq<Action>, p: nat, q: nat, x: Item, y: Item)
    requires p < q < |Run(c, acts).net| && x in Run(c, acts).net[p] && y in Run(c, acts).net[q] && x.id == y.id
    requires !y.resend
    ensures |Sends(c, acts)| == |Run(c, acts).net| && Sends(c, acts)[p].ending == Cut
    ensures Sends(c, acts)[p].failures == Sends(c, acts)[q].failures && !x.resend
  {
    hide Run, Sends;
    ResendIsExact(c, acts, p, q, x, y);
    SendsFit(c, acts);
    SendsAscend(Run(c, acts), Sends(c, acts), p, q);
  }

  lemma SendsAscend(s: State, sends: seq<Sent>, p: nat, q: nat)
    requires SendsOk(s, sends) && p < q < |sends|
    ensures sends[p].failures <= sends[q].failures
  {
  }

  /** No restart cuts off a send. */
  predicate NoCutSends(c: Config, acts: seq<Action>) {
    forall n :: 0 <= n < |acts| && acts[n].EdgeRestart? ==> Run(c, acts[..n]).sender == Idle
  }

  lemma {:induction false} NothingCut(c: Config, acts: seq<Action>)
    requires NoCutSends(c, acts)
    ensures forall p :: 0 <= p < |Sends(c, acts)| ==> Sends(c, acts)[p].ending != Cut
  {
    hide Run, Step;
    if acts != [] {
      var n := |acts| - 1;
      assert forall k :: 0 <= k < n ==> acts[..n][..k] == acts[..k];
      NothingCut(c, acts[..n]);
    }
  }

  /** The requirement met: as long as no restart cuts off a send, every retransmission is flagged. */
  lemma RepeatsAreFlagged(c: Config, acts: seq<Action>, p: nat, q: nat, y: Item)
    requires NoCutSends(c, acts)
    requires p < q < |Run(c, acts).net| && y in Run(c, acts).net[q] && y.id in Ids(Run(c, acts).net[p])
    ensures y.resend
  {
    var items := Run(c, acts).net[p];
    var m :| 0 <= m < |items| && items[m].id == y.id;
    assert items[m] in items;
    NothingCut(c, acts);
    hide Run, Sends, NoCutSends;
    ResendIsExact(c, acts, p, q, items[m], y);
  }
}
