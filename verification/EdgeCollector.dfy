// The Edge's collector as the object it is: a buffer, the state of the line, and the turn of the sender
// loop that is under way.  Each method does to it what the protocol model says.

module EdgeCollector {
  import opened Outcomes
  import opened EdgeBuffer
  import opened MesLedger
  import D = Delivery
  import N = NoiseFilter

  class Collector {
    const buffer: Buffer
    const noise: N.Filter
    const batchMax: int
    var woken: bool
    var link: D.Link
    var mdNg: map<string, real>
    var sender: D.Sender

    /** A start of the Edge finds the buffer as it was left, and knows nothing else. */
    constructor (buffer: Buffer, batchMax: int)
      ensures this.buffer == buffer && this.batchMax == batchMax && fresh(noise) && noise.Is(map[])
      ensures link == D.Unknown && mdNg == map[] && sender == D.Idle && !woken
    {
      this.buffer, this.batchMax, link, mdNg, sender := buffer, batchMax, D.Unknown, map[], D.Idle;
      noise := new N.Filter();
      woken := false;
    }

    /** The Edge's part of a state of the protocol is this object. */
    ghost predicate Is(s: D.State)
      reads this, buffer
    {
      s.queue == buffer.State() && s.link == link && s.mdNg == mdNg && s.sender == sender
    }

    /** `_on_sample`: what the filter keeps of the sample is what the protocol model takes; an urgent one wakes
        the sender. */
    method OnSample(equip: string, ts: int, gauges: seq<N.Gauge>, values: map<string, real>, now: int)
      modifies this, buffer, noise
      ensures forall traces, s ::
                old(noise.Is(traces)) && old(Is(s)) ==>
                  var out := N.Filtered(traces, equip, gauges, values);
                  var sample := Sample(equip, ts, out.keep);
                  && noise.Is(out.traces) && Is(D.TakeSample(s, sample, now))
                  && (woken <==> old(woken) || (out.keep != [] && D.Priority(s.mdNg, sample) == D.URGENT))
    {
      hide N.Filtered;
      var keep := noise.Apply(equip, gauges, values);
      if keep == [] { return; }
      var sample := Sample(equip, ts, keep);
      var priority := D.NORMAL;
      var ng := D.Lookup(sample.readings, "ng_cnt");
      if ng.Some? {
        if sample.equip in mdNg && ng.value > mdNg[sample.equip] { priority := D.URGENT; }
        mdNg := mdNg[sample.equip := ng.value];
      }
      var ids := buffer.Enqueue(ToRawItems(sample), priority, link == D.Down, now);
      if priority == D.URGENT { woken := true; }
    }

    /** The first half of a turn: up to the POST, whose request the wire numbers `req`. */
    method BeginSend(req: nat) returns (items: Option<seq<Item>>)
      requires sender == D.Idle
      modifies this
      ensures forall c: D.Config, s ::
                c.batchMax == batchMax && old(Is(s)) && |s.net| == req ==>
                  && Is(D.StartSend(c, s))
                  && D.StartSend(c, s).net == s.net + (if items.Some? then [items.value] else [])
    {
      var batch := buffer.NextBatch(batchMax);
      if batch == [] {
        NoItems();
        return None;
      }
      var its, resent := PrepareRequest(batch);
      sender := D.Waiting(req, batch);
      items := Some(its);
    }

    /** The second half, with the ids the answer accepts. */
    method Complete(accepted: seq<nat>) returns (ok: bool)
      requires sender.Waiting?
      modifies this, buffer
      ensures ok <==> D.AllAccepted(Payload(old(sender).batch), accepted)
      ensures forall s :: ok && old(Is(s)) && s.sender.req in s.answers && s.answers[s.sender.req] == accepted ==>
                            Is(D.Acknowledged(s))
      ensures forall s :: !ok && old(Is(s)) ==> Is(D.Failed(s))
    {
      hide Payload, ResentCount, D.PendingIds, RowIds, Ids;
      var batch := sender.batch;
      var items, resent := PrepareRequest(batch);
      ok := true;
      for i := 0 to |items|
        invariant ok <==> forall j :: 0 <= j < i ==> items[j].id in accepted
      {
        if items[i].id !in accepted { ok := false; }
      }
      if !ok {
        Fail();
        return;
      }
      link := D.Up;
      buffer.Ack(RowIds(batch), |items|, resent);
      sender := D.Idle;
    }

    /** A timeout, an error, or the injected line fault. */
    method Fail()
      modifies this, buffer
      ensures forall s :: old(Is(s)) ==> Is(D.Failed(s))
    {
      link := D.Down;
      buffer.MarkFailedAll();
      sender := D.Idle;
    }

    /** One turn of `_purger`. */
    method Purge(cut: int) returns (n: nat)
      modifies buffer
      ensures forall s :: old(Is(s)) ==> Is(D.PurgedAtEdge(s, cut))
    {
      n := buffer.Purge(cut);
    }
  }

  lemma NoItems()
    ensures forall net: seq<seq<Item>> :: net + [] == net
  {
  }
}
