// The steps on the MES side keep the delivery invariant: ingesting a request, and the daily purge.

module DeliveryIngest {
  import opened Outcomes
  import opened Sequences
  import opened EdgeBuffer
  import opened MesLedger
  import opened Delivery
  import opened DeliveryInvariant

  // ---------- ingest ----------

  lemma FreshStep(stored: set<nat>, known: set<string>, items: seq<Item>, n: nat)
    requires n < |items|
    ensures var before := Fresh(stored, known, items[..n]);
            Fresh(stored, known, items[..n + 1]) ==
            if items[n].equip in known && items[n].id !in stored && items[n].id !in Ids(before) then before + [items[n]]
            else before
  {
    assert items[..n + 1][..n] == items[..n];
  }

  lemma IdsSnoc(items: seq<Item>, it: Item)
    ensures Ids(items + [it]) == Ids(items) + {it.id}
  {
    IdsAppend(items, [it]);
    assert [it][0] == it;
    assert Ids([it]) == {it.id};
  }

  lemma ClosedSnoc(born: seq<Birth>, log: seq<Item>, it: Item, base: set<nat>)
    requires Closed(born, log, base)
    requires forall i: nat :: Earlier(born, i, it.id) ==> i in Ids(log) + base
    ensures Closed(born, log + [it], base)
  {
    var all := log + [it];
    forall m: nat, i: nat | 0 <= m < |all| && Earlier(born, i, all[m].id)
      ensures i in Ids(all[..m]) + base
    {
      assert all[..m] == log[..m];
      if m == |log| { assert log[..m] == log; }
    }
  }

  lemma StrangerItem(born: seq<Birth>, known: set<string>, items: seq<Item>, m: nat)
    requires Genuine(born, items) && m < |items| && items[m].equip !in known
    ensures items[m].id in Strangers(born, known)
  {
    assert items[m].(resend := false) == born[items[m].id - 1].item;
  }

  /** Once a request has been ingested, each of its messages is in the log or from a stranger. */
  lemma RequestSettled(born: seq<Birth>, known: set<string>, stored: set<nat>, log: seq<Item>, items: seq<Item>)
    requires Genuine(born, items) && stored <= Ids(log)
    ensures Ids(items) <= Ids(log + Fresh(stored, known, items)) + Strangers(born, known)
  {
    var added := Fresh(stored, known, items);
    FreshStoresTheMissing(stored, known, items);
    IdsAppend(log, added);
    hide Fresh, Genuine, Strangers;
    forall x | x in Ids(items)
      ensures x in Ids(log + added) + Strangers(born, known)
    {
      var m :| 0 <= m < |items| && items[m].id == x;
      assert items[m] in items;
      if items[m].equip !in known { StrangerItem(born, known, items, m); }
    }
  }

  lemma GenuinePrefix(born: seq<Birth>, items: seq<Item>, n: nat)
    requires Genuine(born, items) && n <= |items|
    ensures Genuine(born, items[..n])
  {
  }

  /** Item n of a closed request may join the log: what should come before it is there or settled. */
  lemma ClosedStep(born: seq<Birth>, items: seq<Item>, base: set<nat>, n: nat, log: seq<Item>, excused: set<nat>)
    requires n < |items| && Closed(born, items, base) && Closed(born, log, excused)
    requires base <= Ids(log) + excused && Ids(items[..n]) <= Ids(log) + excused
    ensures Closed(born, log + [items[n]], excused)
  {
    hide Closed, Ids;
    forall i: nat | Earlier(born, i, items[n].id)
      ensures i in Ids(log) + excused
    {
      ClosedAt(born, items, base, n, i);
    }
    ClosedSnoc(born, log, items[n], excused);
  }

  /** Appending the new rows of a closed request to a closed log leaves it closed. */
  lemma {:induction false} LogStaysClosed(born: seq<Birth>, known: set<string>, stored: set<nat>, log: seq<Item>,
                                          items: seq<Item>, excused: set<nat>, n: nat)
    requires n <= |items| && Genuine(born, items) && Closed(born, log, excused)
    requires Closed(born, items, Ids(log) + excused)
    requires Strangers(born, known) <= excused && stored <= Ids(log)
    ensures Closed(born, log + Fresh(stored, known, items[..n]), excused)
  {
    if n == 0 {
      assert items[..0] == [] && log + [] == log;
    } else {
      var k := n - 1;
      var before, after := Fresh(stored, known, items[..k]), Fresh(stored, known, items[..n]);
      LogStaysClosed(born, known, stored, log, items, excused, k);
      FreshStep(stored, known, items, k);
      hide Fresh, Closed, Genuine, Strangers;
      if after != before {
        assert after == before + [items[k]];
        GenuinePrefix(born, items, k);
        RequestSettled(born, known, stored, log, items[..k]);
        IdsAppend(log, before);
        ClosedStep(born, items, Ids(log) + excused, k, log + before, excused);
        assert log + after == (log + before) + [items[k]];
      }
    }
  }

  lemma ClosedAt(born: seq<Birth>, items: seq<Item>, base: set<nat>, m: nat, i: nat)
    requires Closed(born, items, base) && m < |items| && Earlier(born, i, items[m].id)
    ensures i in Ids(items[..m]) + base
  {
  }

  lemma GenuineAt(born: seq<Birth>, items: seq<Item>, x: Item)
    requires Genuine(born, items) && x in items
    ensures 1 <= x.id <= |born| && x.(resend := false) == born[x.id - 1].item
    ensures x.id in Ids(items)
  {
    var m :| 0 <= m < |items| && items[m] == x;
  }

  /** The messages of one sample come from one device. */
  lemma SampleKnown(born: seq<Birth>, q: Queue, items: seq<Item>, x: Item, y: Item)
    requires BornOk(born, q) && Genuine(born, items) && x in items && y in items && SameRow(born, x.id, y.id)
    ensures x.equip == y.equip && x.ts == y.ts
  {
    GenuineAt(born, items, x);
    GenuineAt(born, items, y);
    assert SameSample(born[x.id - 1], born[y.id - 1]);
  }

  /** Samples enter the ledger whole. */
  lemma AddedWhole(born: seq<Birth>, q: Queue, known: set<string>, stored: set<nat>, items: seq<Item>, old_: set<nat>)
    requires BornOk(born, q) && Genuine(born, items) && Whole(born, Ids(items)) && Whole(born, old_) && stored <= old_
    ensures Whole(born, old_ + Ids(Fresh(stored, known, items)))
  {
    var added := Fresh(stored, known, items);
    FreshStoresTheMissing(stored, known, items);
    hide Fresh, BornOk, Genuine;
    forall i: nat, j: nat | SameRow(born, i, j) && i in old_ + Ids(added)
      ensures j in old_ + Ids(added)
    {
      if i !in old_ {
        var m :| 0 <= m < |added| && added[m].id == i;
        var x := added[m];
        assert x in added && x in items;
        GenuineAt(born, items, x);
        assert j in Ids(items);
        var l :| 0 <= l < |items| && items[l].id == j;
        SampleKnown(born, q, items, x, items[l]);
        assert items[l] in items;
      }
    }
  }

  lemma AddedGenuine(born: seq<Birth>, log: seq<Item>, items: seq<Item>, added: seq<Item>)
    requires Genuine(born, log) && Genuine(born, items) && forall x :: x in added ==> x in items
    ensures Genuine(born, log + added)
  {
    var all := log + added;
    forall m | 0 <= m < |all|
      ensures 1 <= all[m].id <= |born| && all[m].(resend := false) == born[all[m].id - 1].item
    {
      if m >= |log| {
        assert all[m] == added[m - |log|] && added[m - |log|] in added;
        GenuineAt(born, items, all[m]);
      }
    }
  }

  lemma LogRepeats(log: seq<Item>, added: seq<Item>, stored: set<nat>, forgotten: set<nat>)
    requires RepeatsForgotten(log, forgotten)
    requires DistinctIds(added) && Ids(log) <= stored + forgotten && Ids(added) !! stored
    ensures RepeatsForgotten(log + added, forgotten)
  {
    var all := log + added;
    forall l, m | 0 <= l < m < |all| && all[l].id == all[m].id
      ensures all[l].id in forgotten
    {
      assert l < |log| ==> log[l].id in Ids(log);
      assert |log| <= m ==> added[m - |log|].id in Ids(added);
    }
  }

  lemma FreshFacts(stored: set<nat>, known: set<string>, items: seq<Item>)
    ensures var added := Fresh(stored, known, items);
            DistinctIds(added) && Ids(added) !! stored && Ids(added) <= Ids(items)
            && AllKnown(known, added) && forall x :: x in added ==> x in items
  {
    var added := Fresh(stored, known, items);
    FreshStoresTheMissing(stored, known, items);
    hide Fresh;
    forall x | x in Ids(added)
      ensures x !in stored && x in Ids(items)
    {
      var m :| 0 <= m < |added| && added[m].id == x;
      assert added[m] in added;
      var n :| 0 <= n < |items| && items[n] == added[m];
    }
  }

  lemma IngestLog(c: Config, s: State, req: nat)
    requires BornOk(s.hist.born, s.queue) && LogOk(c, s.hist) && LedgerOk(s.ledger, s.hist)
    requires req < |s.net| && RequestOk(s.hist.born, s.net[req], Settled(c, s.hist))
    ensures LogOk(c, Ingested(c, s, req).hist)
  {
    var h, g, items := s.hist, Ingested(c, s, req).hist, s.net[req];
    var stored := Ids(s.ledger);
    var added := Fresh(stored, c.known, items);
    LedgerInLog(s.ledger, h);
    var log, forgotten := h.log, h.forgotten;
    assert Ids(log) <= stored + forgotten;
    hide LedgerOk, BornOk, Genuine, Closed, Whole, Fresh, Ids, DistinctIds, Excused, AllKnown, RepeatsForgotten;
    FreshFacts(stored, c.known, items);
    assert items[..|items|] == items;
    assert Settled(c, h) == Ids(h.log) + Excused(c, h);
    LogStaysClosed(h.born, c.known, stored, h.log, items, Excused(c, h), |items|);
    AddedWhole(h.born, s.queue, c.known, stored, items, Ids(h.log));
    IdsAppend(h.log, added);
    AddedGenuine(h.born, h.log, items, added);
    LogRepeats(h.log, added, stored, h.forgotten);
    AllKnownAppend(c.known, h.log, added);
  }

  lemma AllKnownAppend(known: set<string>, a: seq<Item>, b: seq<Item>)
    requires AllKnown(known, a) && AllKnown(known, b)
    ensures AllKnown(known, a + b)
  {
  }

  lemma LedgerInLog(ledger: seq<Item>, h: History)
    requires LedgerOk(ledger, h)
    ensures Ids(ledger) <= Ids(h.log)
  {
    forall x | x in Ids(ledger)
      ensures x in Ids(h.log)
    {
      var m :| 0 <= m < |ledger| && ledger[m].id == x;
      assert ledger[m] in ledger;
      var n :| 0 <= n < |h.log| && h.log[n] == ledger[m];
    }
  }

  lemma DistinctAppend(a: seq<Item>, b: seq<Item>)
    requires DistinctIds(a) && DistinctIds(b) && Ids(a) !! Ids(b)
    ensures DistinctIds(a + b)
  {
    var all := a + b;
    forall l, m | 0 <= l < m < |all|
      ensures all[l].id != all[m].id
    {
      assert l < |a| ==> a[l].id in Ids(a);
      assert |a| <= m ==> b[m - |a|].id in Ids(b);
    }
  }

  lemma IngestLedger(c: Config, s: State, req: nat)
    requires BornOk(s.hist.born, s.queue) && LedgerOk(s.ledger, s.hist)
    requires req < |s.net| && RequestOk(s.hist.born, s.net[req], Settled(c, s.hist))
    ensures LedgerOk(Ingested(c, s, req).ledger, Ingested(c, s, req).hist)
  {
    hide Fresh, Genuine, Closed, Whole, BornOk, Ids, DistinctIds, Settled, Concat;
    var h, t, items := s.hist, Ingested(c, s, req), s.net[req];
    var stored := Ids(s.ledger);
    var added := Fresh(stored, c.known, items);
    FreshFacts(stored, c.known, items);
    AddedWhole(h.born, s.queue, c.known, stored, items, stored);
    IdsAppend(h.log, added);
    IdsAppend(s.ledger, added);
    DistinctAppend(s.ledger, added);
    ConcatSnoc(h.ingests, added);
  }

  lemma ConcatSnoc(lists: seq<seq<Item>>, last: seq<Item>)
    ensures Concat(lists + [last]) == Concat(lists) + last
  {
    assert (lists + [last])[..|lists|] == lists;
  }

  lemma IngestAnswers(c: Config, s: State, req: nat)
    requires AnswersOk(c, s.net, s.answers, s.hist) && LedgerOk(s.ledger, s.hist)
    requires req < |s.net| && Genuine(s.hist.born, s.net[req])
    ensures var t := Ingested(c, s, req); AnswersOk(c, t.net, t.answers, t.hist)
  {
    var t, items := Ingested(c, s, req), s.net[req];
    var stored := Ids(s.ledger);
    LedgerInLog(s.ledger, s.hist);
    FreshStoresTheMissing(stored, c.known, items);
    IdsAppend(s.hist.log, Fresh(stored, c.known, items));
    hide Fresh, LedgerOk;
    forall x | x in Ids(items)
      ensures x in Ids(t.hist.log) + Strangers(t.hist.born, c.known)
    {
      var m :| 0 <= m < |items| && items[m].id == x;
      assert items[m] in items;
      if items[m].equip !in c.known { StrangerItem(s.hist.born, c.known, items, m); }
    }
  }

  lemma IngestSettles(c: Config, s: State, req: nat)
    requires req < |s.net|
    ensures Settled(c, s.hist) <= Settled(c, Ingested(c, s, req).hist)
  {
    IdsAppend(s.hist.log, Fresh(Ids(s.ledger), c.known, s.net[req]));
  }

  lemma CoveredWidens(born: seq<Birth>, rows: seq<Row>, base: set<nat>, wider: set<nat>)
    requires Covered(born, rows, base) && base <= wider
    ensures Covered(born, rows, wider)
  {
    forall i | 1 <= i <= |born|
      ensures i in PendingIds(rows) + wider
    {
      assert i in PendingIds(rows) + base;
    }
  }

  /** What looks at the history without the log, the ingests and the forgotten ids. */
  lemma LogAside(rows: seq<Row>, link: Link, sender: Sender, net: seq<seq<Item>>, q: Queue, h: History, g: History)
    requires g == h.(log := g.log, ingests := g.ingests, forgotten := g.forgotten)
    ensures SenderOk(sender, net, q, h) ==> SenderOk(sender, net, q, g)
    ensures CountsOk(q, h) ==> CountsOk(q, g)
    ensures FlagsOk(rows, link, h) ==> FlagsOk(rows, link, g)
  {
    if FlagsOk(rows, link, h) {
      forall m | 0 <= m < |rows|
        ensures RowFlagsOk(g, rows[m])
      {
        assert RowFlagsOk(h, rows[m]);
      }
    }
  }

  lemma ProcessKeeps(c: Config, s: State, req: nat)
    requires Inv(c, s) && req < |s.net|
    ensures Inv(c, Ingested(c, s, req))
  {
    var t := Ingested(c, s, req);
    RequestAt(s.hist.born, s.net, Settled(c, s.hist), req);
    hide BornOk, RowsOk, Covered, LostOk, NetOk, LogOk, LedgerOk, AnswersOk, SenderOk, CountsOk, FlagsOk, Settled,
         Fresh, Closed, Whole, DistinctIds, Genuine;
    IngestLog(c, s, req);
    IngestLedger(c, s, req);
    IngestAnswers(c, s, req);
    IngestSettles(c, s, req);
    CoveredWidens(s.hist.born, s.queue.rows, Settled(c, s.hist), Settled(c, t.hist));
    NetWidens(s.hist.born, s.net, Settled(c, s.hist), Settled(c, t.hist));
    LogAside(s.queue.rows, s.link, s.sender, s.net, s.queue, s.hist, t.hist);
  }

  lemma RequestAt(born: seq<Birth>, net: seq<seq<Item>>, settled: set<nat>, q: nat)
    requires NetOk(born, net, settled) && q < |net|
    ensures RequestOk(born, net[q], settled)
  {
  }

  // ---------- the daily purge ----------

  lemma InIds(items: seq<Item>, x: Item)
    requires x in items
    ensures x.id in Ids(items)
  {
    var m :| 0 <= m < |items| && items[m] == x;
  }

  /** What a filter keeps and what it drops are together what there was. */
  lemma KeptAndDropped(items: seq<Item>, keep: Item -> bool, drop: Item -> bool)
    requires forall x :: keep(x) <==> !drop(x)
    ensures Ids(items) == Ids(Filter(items, keep)) + Ids(Filter(items, drop))
  {
    var kept, dropped := Filter(items, keep), Filter(items, drop);
    forall x
      ensures x in Ids(items) <==> x in Ids(kept) + Ids(dropped)
    {
      if x in Ids(items) {
        var m :| 0 <= m < |items| && items[m].id == x;
        if keep(items[m]) { InIds(kept, items[m]); } else { InIds(dropped, items[m]); }
      }
      if x in Ids(kept) {
        var m :| 0 <= m < |kept| && kept[m].id == x;
        assert kept[m] in kept;
        InIds(items, kept[m]);
      }
      if x in Ids(dropped) {
        var m :| 0 <= m < |dropped| && dropped[m].id == x;
        assert dropped[m] in dropped;
        InIds(items, dropped[m]);
      }
    }
  }

  lemma PurgedLedger(c: Config, s: State, cutoff: int)
    requires BornOk(s.hist.born, s.queue) && LogOk(c, s.hist) && LedgerOk(s.ledger, s.hist)
    ensures LedgerOk(PurgedAtMes(s, cutoff).ledger, PurgedAtMes(s, cutoff).hist)
  {
    var keep, drop := (x: Item) => x.ts >= cutoff, (x: Item) => x.ts < cutoff;
    var kept, dropped := Filter(s.ledger, keep), Filter(s.ledger, drop);
    FilterKeepsOrder(s.ledger, keep, (a: Item, b: Item) => a.id != b.id);
    assert DistinctIds(kept);
    LedgerInLog(s.ledger, s.hist);
    KeptWhole(c, s, cutoff);
    hide BornOk, LogOk, Ids, DistinctIds, Whole;
    KeptAndDropped(s.ledger, keep, drop);
  }

  /** The purge looks only at the collect time, which the messages of a sample share. */
  lemma KeptWhole(c: Config, s: State, cutoff: int)
    requires BornOk(s.hist.born, s.queue) && LogOk(c, s.hist) && LedgerOk(s.ledger, s.hist)
    ensures Whole(s.hist.born, Ids(PurgedAtMes(s, cutoff).ledger))
  {
    var h, kept := s.hist, PurgedAtMes(s, cutoff).ledger;
    hide BornOk, LogOk, Genuine, Ids;
    forall i: nat, j: nat | SameRow(h.born, i, j) && i in Ids(kept)
      ensures j in Ids(kept)
    {
      var n :| 0 <= n < |kept| && kept[n].id == i;
      var x := kept[n];
      assert x in kept && x in s.ledger;
      InIds(s.ledger, x);
      var m :| 0 <= m < |s.ledger| && s.ledger[m].id == j;
      var y := s.ledger[m];
      assert y in s.ledger;
      LogGenuine(c, h);
      SampleKnown(h.born, s.queue, h.log, x, y);
      InIds(kept, y);
    }
  }

  lemma LogGenuine(c: Config, h: History)
    requires LogOk(c, h)
    ensures Genuine(h.born, h.log)
  {
  }

  lemma MesPurgeKeeps(c: Config, s: State, cutoff: int)
    requires Inv(c, s)
    ensures Inv(c, PurgedAtMes(s, cutoff))
  {
    var t := PurgedAtMes(s, cutoff);
    PurgedLedger(c, s, cutoff);
    LogForgets(c, s.net, s.answers, s.hist, t.hist);
    hide BornOk, RowsOk, Covered, LostOk, NetOk, LogOk, LedgerOk, AnswersOk, SenderOk, CountsOk, FlagsOk, Settled;
    LogAside(s.queue.rows, s.link, s.sender, s.net, s.queue, s.hist, t.hist);
  }

  lemma LogForgets(c: Config, net: seq<seq<Item>>, answers: map<nat, seq<nat>>, h: History, g: History)
    requires g == h.(forgotten := g.forgotten) && h.forgotten <= g.forgotten
    ensures Settled(c, g) == Settled(c, h)
    ensures LogOk(c, h) ==> LogOk(c, g)
    ensures AnswersOk(c, net, answers, h) ==> AnswersOk(c, net, answers, g)
  {
  }
}
