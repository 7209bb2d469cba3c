// The counters the Edge keeps in its database, told by the requests on the wire: what has been sent is what was answered.

module DeliveryCounts {
  import opened Outcomes
  import opened Sequences
  import opened EdgeBuffer
  import opened MesLedger
  import opened Delivery
  import opened DeliveryInvariant
  import opened DeliverySteps
  import opened DeliveryIngest
  import opened DeliveryQueue
  import opened DeliverySample
  import opened DeliveryTheorems
  import opened DeliveryResends

  /** How many items of a request carry the flag. */
  function FlaggedIn(items: seq<Item>): nat {
    if items == [] then 0
    else FlaggedIn(items[..|items| - 1]) + if items[|items| - 1].resend then 1 else 0
  }

  /** The items of all requests whose answer has reached the sender. */
  function AnsweredItems(net: seq<seq<Item>>, sends: seq<Sent>): nat
    requires |sends| == |net|
  {
    if net == [] then 0
    else
      var n := |net| - 1;
      AnsweredItems(net[..n], sends[..n]) + if sends[n].ending == Answered then |net[n]| else 0
  }

  function AnsweredFlags(net: seq<seq<Item>>, sends: seq<Sent>): nat
    requires |sends| == |net|
  {
    if net == [] then 0
    else
      var n := |net| - 1;
      AnsweredFlags(net[..n], sends[..n]) + if sends[n].ending == Answered then FlaggedIn(net[n]) else 0
  }

  ghost predicate CountsAnswered(q: Queue, net: seq<seq<Item>>, sends: seq<Sent>) {
    |sends| == |net| && q.sent == AnsweredItems(net, sends) && q.resent == AnsweredFlags(net, sends)
  }

  // ---------- the items of a batch ----------

  lemma {:induction false} FlaggedAppend(a: seq<Item>, b: seq<Item>)
    ensures FlaggedIn(a + b) == FlaggedIn(a) + FlaggedIn(b)
  {
    if b == [] {
      assert a + b == a;
    } else {
      var n := |b| - 1;
      assert (a + b)[..|a + b| - 1] == a + b[..n];
      FlaggedAppend(a, b[..n]);
    }
  }

  lemma {:induction false} FlaggedAll(items: seq<Item>, flag: bool)
    requires forall i :: 0 <= i < |items| ==> items[i].resend == flag
    ensures FlaggedIn(items) == if flag then |items| else 0
  {
    if items != [] { FlaggedAll(items[..|items| - 1], flag); }
  }

  lemma {:induction false} BatchFlags(batch: seq<Row>)
    ensures ResentCount(batch) == FlaggedIn(Payload(batch))
  {
    if batch != [] {
      var n := |batch| - 1;
      BatchFlags(batch[..n]);
      FlaggedAll(Flagged(batch[n]), Flag(batch[n]));
      hide Flag;
      FlaggedAppend(Payload(batch[..n]), Flagged(batch[n]));
    }
  }

  // ---------- steps ----------

  lemma LastEnds(net: seq<seq<Item>>, sends: seq<Sent>, ending: Ending)
    requires net != [] && |sends| == |net| && sends[|sends| - 1].ending == Out
    ensures var p := |net| - 1; var more := sends[p := sends[p].(ending := ending)];
            && AnsweredItems(net, more) == AnsweredItems(net, sends) + (if ending == Answered then |net[p]| else 0)
            && AnsweredFlags(net, more) == AnsweredFlags(net, sends) + (if ending == Answered then FlaggedIn(net[p]) else 0)
  {
    var p := |net| - 1;
    assert sends[p := sends[p].(ending := ending)][..p] == sends[..p];
    hide FlaggedIn;
  }

  lemma OneMoreOut(net: seq<seq<Item>>, sends: seq<Sent>, items: seq<Item>, failures: nat)
    requires |sends| == |net|
    ensures AnsweredItems(net + [items], sends + [Sent(failures, Out)]) == AnsweredItems(net, sends)
    ensures AnsweredFlags(net + [items], sends + [Sent(failures, Out)]) == AnsweredFlags(net, sends)
  {
    assert (net + [items])[..|net|] == net && (sends + [Sent(failures, Out)])[..|sends|] == sends;
  }

  lemma EndedCounts(s: State, sends: seq<Sent>, ending: Ending, q: Queue)
    requires SendsOk(s, sends) && s.sender.Waiting? && CountsAnswered(s.queue, s.net, sends) && s.sender.req < |s.net|
    requires q.sent == s.queue.sent + (if ending == Answered then |s.net[s.sender.req]| else 0)
    requires q.resent == s.queue.resent + (if ending == Answered then FlaggedIn(s.net[s.sender.req]) else 0)
    ensures CountsAnswered(q, s.net, Ended(sends, s.sender.req, ending))
  {
    hide AllFlags, Counted, AnsweredGone, RepeatsEnded, AnsweredItems, AnsweredFlags, FlaggedIn;
    LastEnds(s.net, sends, ending);
  }

  lemma WaitsForSent(c: Config, s: State)
    requires Inv(c, s) && s.sender.Waiting?
    ensures s.sender.req < |s.net| && s.net[s.sender.req] == Payload(s.sender.batch)
  {
  }

  lemma AckCounts(c: Config, s: State, sends: seq<Sent>)
    requires Inv(c, s) && SendsOk(s, sends) && CountsAnswered(s.queue, s.net, sends)
    ensures CountsAnswered(Step(c, s, Acknowledge).queue, s.net, Recorded(c, s, sends, Acknowledge))
  {
    hide Inv, SendsOk, CountsAnswered, Payload, PendingIds, AllAccepted, ResentCount, Filter, RowIds, Ids, Ended;
    if s.sender.Waiting? {
      WaitsForSent(c, s);
      BatchFlags(s.sender.batch);
      if Acknowledged(s).sender == Idle { EndedCounts(s, sends, Answered, Acknowledged(s).queue); }
    }
  }

  lemma EndCounts(c: Config, s: State, sends: seq<Sent>, a: Action)
    requires Inv(c, s) && SendsOk(s, sends) && CountsAnswered(s.queue, s.net, sends) && (a.Fail? || a.EdgeRestart?)
    ensures CountsAnswered(Step(c, s, a).queue, s.net, Recorded(c, s, sends, a)) && Step(c, s, a).net == s.net
  {
    hide Inv, SendsOk, Payload, Marked, AnsweredItems, AnsweredFlags, Ended;
    if s.sender.Waiting? {
      WaitsForSent(c, s);
      EndedCounts(s, sends, if a.Fail? then Failing else Cut, Step(c, s, a).queue);
    }
  }

  lemma OtherCounts(c: Config, s: State, a: Action)
    requires !a.Acknowledge? && !a.Fail? && !a.EdgeRestart?
    ensures Step(c, s, a).queue.sent == s.queue.sent && Step(c, s, a).queue.resent == s.queue.resent
    ensures !a.Send? ==> Step(c, s, a).net == s.net
    ensures a.Send? ==> Step(c, s, a).net == s.net || Step(c, s, a).net == s.net + [Payload(NextBatch(c, s))]
  {
    hide NextBatch, Payload, Fresh, Ids, PendingIds, Filter, Marked, Old, ItemCount, Births, Numbered, ToRawItems, Priority, NoteNg,
         MessageIds;
  }

  lemma CountsStep(c: Config, s: State, sends: seq<Sent>, a: Action)
    requires Inv(c, s) && SendsOk(s, sends) && CountsAnswered(s.queue, s.net, sends)
    ensures CountsAnswered(Step(c, s, a).queue, Step(c, s, a).net, Recorded(c, s, sends, a))
  {
    hide Inv, SendsOk, AnsweredItems, AnsweredFlags, Step, Ended, Payload, NextBatch;
    if a.Acknowledge? {
      AckCounts(c, s, sends);
      AckNet(c, s);
    } else if a.Fail? || a.EdgeRestart? {
      EndCounts(c, s, sends, a);
    } else {
      OtherCounts(c, s, a);
      if a.Send? { OneMoreOut(s.net, sends, Payload(NextBatch(c, s)), s.hist.failures); }
    }
  }

  lemma AckNet(c: Config, s: State)
    ensures Step(c, s, Acknowledge).net == s.net
  {
    hide Payload, PendingIds, AllAccepted, ResentCount, Filter, RowIds, Ids;
  }

  /** In every run the counters in the database are exact: sent is the number of items in all requests whose answer
      has reached the sender, and resent that of the flagged ones among them. */
  lemma {:induction false} CountersAreExact(c: Config, acts: seq<Action>)
    ensures var s, sends := Run(c, acts), Sends(c, acts);
            |sends| == |s.net| && s.queue.sent == AnsweredItems(s.net, sends) && s.queue.resent == AnsweredFlags(s.net, sends)
  {
    hide Step, Inv, SendsOk, Recorded, AnsweredItems, AnsweredFlags;
    if acts == [] {
      NothingAnswered();
    } else {
      var n := |acts| - 1;
      CountersAreExact(c, acts[..n]);
      RunKeeps(c, acts[..n]);
      SendsFit(c, acts[..n]);
      CountsStep(c, Run(c, acts[..n]), Sends(c, acts[..n]), acts[n]);
    }
  }

  lemma NothingAnswered()
    ensures AnsweredItems([], []) == 0 && AnsweredFlags([], []) == 0
  {
  }
}
