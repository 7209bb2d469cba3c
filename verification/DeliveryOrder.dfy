// When exactly the MES stores the messages of a priority in the order of their numbers.

module DeliveryOrder {
  import opened Outcomes
  import opened Sequences
  import opened EdgeBuffer
  import opened MesLedger
  import opened Delivery
  import opened DeliveryInvariant
  import opened DeliverySteps
  import opened DeliveryIngest
  import opened DeliveryQueue
  import opened DeliverySample
  import opened DeliveryTheorems
  import opened RequestOrder

  /** No message was stored after a later one of its priority. */
  ghost predicate InOrder(born: seq<Birth>, log: seq<Item>) {
    forall l, m :: 0 <= l < m < |log| ==> !Earlier(born, log[m].id, log[l].id)
  }

  /** The message will be stored, though it has been purged at the Edge or was stored and purged before, and a later one of
      its priority is there already. */
  ghost predicate ComesLate(c: Config, s: State, x: Item, y: Item) {
    && x.equip in c.known && x.id !in Ids(s.ledger) && (x.id in s.hist.lost || x.id in Ids(s.hist.log))
    && Earlier(s.hist.born, x.id, y.id)
  }

  /** The action is an ingest of a request with such a message. */
  ghost predicate Overtaken(c: Config, s: State, a: Action) {
    && a.Process? && a.req < |s.net|
    && exists m, l :: 0 <= m < |s.net[a.req]| && 0 <= l < |s.hist.log| && ComesLate(c, s, s.net[a.req][m], s.hist.log[l])
  }

  ghost predicate NothingOvertaken(c: Config, acts: seq<Action>) {
    forall n :: 0 <= n < |acts| ==> !Overtaken(c, Run(c, acts[..n]), acts[n])
  }

  // ---------- an ingest ----------

  lemma AddedInOrder(born: seq<Birth>, added: seq<Item>)
    requires RowsInOrder(born, added)
    ensures InOrder(born, added)
  {
  }

  lemma OrderSplits(born: seq<Birth>, log: seq<Item>, added: seq<Item>)
    ensures InOrder(born, log + added) <==>
            && InOrder(born, log) && InOrder(born, added)
            && forall l, m :: 0 <= l < |log| && 0 <= m < |added| ==> !Earlier(born, added[m].id, log[l].id)
  {
    hide Earlier;
    var all := log + added;
    assert forall l :: 0 <= l < |log| ==> all[l] == log[l];
    assert forall m :: 0 <= m < |added| ==> all[|log| + m] == added[m];
    if InOrder(born, all) {
      forall l, m | 0 <= l < |log| && 0 <= m < |added|
        ensures !Earlier(born, added[m].id, log[l].id)
      {
        assert !Earlier(born, all[|log| + m].id, all[l].id);
      }
      forall l, m | 0 <= l < m < |added|
        ensures !Earlier(born, added[m].id, added[l].id)
      {
        assert !Earlier(born, all[|log| + m].id, all[|log| + l].id);
      }
    }
  }

  lemma KnownIsNoStranger(c: Config, h: History, x: Item)
    requires x.equip in c.known && 1 <= x.id <= |h.born| && x.(resend := false) == h.born[x.id - 1].item
    ensures x.id !in Strangers(h.born, c.known)
  {
  }

  /** A new row that a later one stored before has overtaken was purged at the Edge, or stored before. */
  lemma LateHasACause(c: Config, h: History, x: Item, l: nat)
    requires LogOk(c, h) && l < |h.log| && Earlier(h.born, x.id, h.log[l].id) && x.equip in c.known
    requires 1 <= x.id <= |h.born| && x.(resend := false) == h.born[x.id - 1].item
    ensures x.id in h.lost || x.id in Ids(h.log)
  {
    KnownIsNoStranger(c, h, x);
    assert Closed(h.born, h.log, Excused(c, h)) by { LogIsClosed(c, h); }
    hide LogOk, Closed, Ids, Earlier, Strangers;
    ClosedAt(h.born, h.log, Excused(c, h), l, x.id);
    assert h.log == h.log[..l] + h.log[l..];
    IdsAppend(h.log[..l], h.log[l..]);
  }

  lemma LogIsClosed(c: Config, h: History)
    requires LogOk(c, h)
    ensures Closed(h.born, h.log, Excused(c, h))
  {
    hide Closed, Excused;
  }

  lemma GenuineMember(born: seq<Birth>, items: seq<Item>, x: Item)
    requires Genuine(born, items) && x in items
    ensures 1 <= x.id <= |born| && x.(resend := false) == born[x.id - 1].item
  {
  }

  lemma AddedGenuine(c: Config, s: State, req: nat, x: Item)
    requires Inv(c, s) && req < |s.net| && x in Fresh(Ids(s.ledger), c.known, s.net[req])
    ensures x in s.net[req] && x.equip in c.known && x.id !in Ids(s.ledger)
    ensures 1 <= x.id <= |s.hist.born| && x.(resend := false) == s.hist.born[x.id - 1].item
  {
    hide Inv, Fresh, Ids, RequestOk, Genuine;
    var added := Fresh(Ids(s.ledger), c.known, s.net[req]);
    FreshFacts(Ids(s.ledger), c.known, s.net[req]);
    InIds(added, x);
    assert Genuine(s.hist.born, s.net[req]) by { RequestAt(c, s, req); RequestIsGenuine(s.hist.born, s.net[req], Settled(c, s.hist)); }
    GenuineMember(s.hist.born, s.net[req], x);
  }

  lemma RequestIsGenuine(born: seq<Birth>, items: seq<Item>, settled: set<nat>)
    requires RequestOk(born, items, settled)
    ensures Genuine(born, items)
  {
    hide Genuine, Closed, Whole, DistinctIds;
  }

  lemma RequestAt(c: Config, s: State, req: nat)
    requires Inv(c, s) && req < |s.net|
    ensures RequestOk(s.hist.born, s.net[req], Settled(c, s.hist))
  {
    hide RequestOk;
  }

  lemma CrossingIsLate(c: Config, s: State, req: nat)
    requires Inv(c, s) && req < |s.net|
    ensures var added := Fresh(Ids(s.ledger), c.known, s.net[req]);
            Overtaken(c, s, Process(req)) <==>
              exists l, m :: 0 <= l < |s.hist.log| && 0 <= m < |added| && Earlier(s.hist.born, added[m].id, s.hist.log[l].id)
  {
    hide Inv, LogOk, Fresh, Earlier, ComesLate, Ids;
    var items, log, added := s.net[req], s.hist.log, Fresh(Ids(s.ledger), c.known, s.net[req]);
    if l, m :| 0 <= l < |log| && 0 <= m < |added| && Earlier(s.hist.born, added[m].id, log[l].id) {
      var k := AddedComesLate(c, s, req, l, m);
    }
    if k, l :| 0 <= k < |items| && 0 <= l < |log| && ComesLate(c, s, items[k], log[l]) {
      var m := LateIsAdded(c, s, req, k, l);
    }
  }

  lemma AddedComesLate(c: Config, s: State, req: nat, l: nat, m: nat) returns (k: nat)
    requires Inv(c, s) && req < |s.net| && l < |s.hist.log| && m < |Fresh(Ids(s.ledger), c.known, s.net[req])|
    requires Earlier(s.hist.born, Fresh(Ids(s.ledger), c.known, s.net[req])[m].id, s.hist.log[l].id)
    ensures k < |s.net[req]| && ComesLate(c, s, s.net[req][k], s.hist.log[l])
  {
    hide Inv, LogOk, Fresh, Earlier, Ids;
    var x := Fresh(Ids(s.ledger), c.known, s.net[req])[m];
    LogIsOk(c, s);
    AddedGenuine(c, s, req, x);
    LateHasACause(c, s.hist, x, l);
    k :| 0 <= k < |s.net[req]| && s.net[req][k] == x;
  }

  lemma LateIsAdded(c: Config, s: State, req: nat, k: nat, l: nat) returns (m: nat)
    requires req < |s.net| && k < |s.net[req]| && l < |s.hist.log| && ComesLate(c, s, s.net[req][k], s.hist.log[l])
    ensures m < |Fresh(Ids(s.ledger), c.known, s.net[req])|
    ensures Earlier(s.hist.born, Fresh(Ids(s.ledger), c.known, s.net[req])[m].id, s.hist.log[l].id)
  {
    hide Fresh, Earlier;
    var x, added := s.net[req][k], Fresh(Ids(s.ledger), c.known, s.net[req]);
    FreshStoresTheMissing(Ids(s.ledger), c.known, s.net[req]);
    assert x in s.net[req];
    assert x.id in Ids(added);
    m :| 0 <= m < |added| && added[m].id == x.id;
  }

  lemma IngestOrder(c: Config, s: State, req: nat)
    requires Inv(c, s) && InOrderSoFar(s) && req < |s.net|
    ensures InOrder(s.hist.born, Ingested(c, s, req).hist.log) <==>
            InOrder(s.hist.born, s.hist.log) && !Overtaken(c, s, Process(req))
  {
    hide Inv, AllInOrder, Fresh, Ids, RowsInOrder, Overtaken, Earlier, InOrder;
    var added := Fresh(Ids(s.ledger), c.known, s.net[req]);
    AllAt(s.hist.born, s.net, req);
    FreshInOrder(s.hist.born, Ids(s.ledger), c.known, s.net[req]);
    AddedInOrder(s.hist.born, added);
    CrossingIsLate(c, s, req);
    OrderSplits(s.hist.born, s.hist.log, added);
  }

  // ---------- every step ----------

  lemma OrderOfLonger(born: seq<Birth>, more: seq<Birth>, log: seq<Item>)
    requires born <= more && Genuine(born, log)
    ensures InOrder(more, log) <==> InOrder(born, log)
  {
    assert forall k :: 0 <= k < |born| ==> more[k] == born[k];
    forall l, m | 0 <= l < m < |log|
      ensures Earlier(more, log[m].id, log[l].id) <==> Earlier(born, log[m].id, log[l].id)
    {
      assert 1 <= log[l].id <= |born| && 1 <= log[m].id <= |born|;
    }
    hide Earlier;
  }

  lemma LogStays(c: Config, s: State, a: Action)
    requires !a.Process? || a.req >= |s.net|
    ensures Step(c, s, a).hist.log == s.hist.log && s.hist.born <= Step(c, s, a).hist.born
  {
    hide NextBatch, Payload, Fresh, Ids, PendingIds, Filter, AllAccepted, ResentCount, Marked, Purged, Old;
  }

  lemma OrderStep(c: Config, s: State, a: Action)
    requires Inv(c, s) && InOrderSoFar(s)
    ensures InOrder(Step(c, s, a).hist.born, Step(c, s, a).hist.log) <==>
            InOrder(s.hist.born, s.hist.log) && !Overtaken(c, s, a)
  {
    hide Inv, InOrderSoFar, InOrder, Genuine, LogOk, Fresh, Ids;
    if a.Process? && a.req < |s.net| {
      hide Overtaken;
      IngestOrder(c, s, a.req);
      SameBorn(c, s, a.req);
    } else {
      hide Step;
      LogIsOk(c, s);
      LogGenuine(c, s.hist);
      LogStays(c, s, a);
      OrderOfLonger(s.hist.born, Step(c, s, a).hist.born, s.hist.log);
    }
  }

  lemma SameBorn(c: Config, s: State, req: nat)
    requires req < |s.net|
    ensures Step(c, s, Process(req)) == Ingested(c, s, req) && Ingested(c, s, req).hist.born == s.hist.born
  {
    hide Fresh, Ids;
  }

  lemma NothingInOrder(born: seq<Birth>)
    ensures InOrder(born, [])
  {
  }

  /** The messages of each priority are stored in the order of their numbers if and only if no ingest gets a message that
      has been overtaken: purged at the Edge, or by the MES after it was stored, while on its way, with a
      later message of its priority stored already. */
  lemma {:induction false} OrderExactly(c: Config, acts: seq<Action>)
    ensures InOrder(Run(c, acts).hist.born, Run(c, acts).hist.log) <==> NothingOvertaken(c, acts)
  {
    hide Step, Overtaken, Inv, InOrderSoFar, InOrder;
    if acts == [] {
      NothingInOrder([]);
    } else {
      var n := |acts| - 1;
      OrderExactly(c, acts[..n]);
      RunKeeps(c, acts[..n]);
      RunInOrder(c, acts[..n]);
      OrderStep(c, Run(c, acts[..n]), acts[n]);
      assert forall k :: 0 <= k < n ==> acts[..n][..k] == acts[..k] && acts[..n][k] == acts[k];
    }
  }
}
