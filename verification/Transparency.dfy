// The whole path is transparent for equipment that is never urgent: what the MES routes for it is, call
// for call, what the Edge sampled.  Messages are numbered, batched, retried, delivered late and again,
// stored once each and regrouped, and none of it shows.

module Transparency {
  import opened Outcomes
  import opened Sequences
  import opened EdgeBuffer
  import opened MesLedger
  import opened Delivery
  import opened DeliveryInvariant
  import opened DeliverySteps
  import opened DeliveryIngest
  import opened DeliveryTheorems
  import opened RequestOrder
  import opened SamplePath
  import opened SampleRouting

  // ---------- prefixes of time-ordered calls ----------

  ghost predicate Increasing(calls: seq<Group>) {
    forall i, j :: 0 <= i < j < |calls| ==> calls[i].ts < calls[j].ts
  }

  /** Every call of `a` is one of `b`, and so is with it every earlier one of `b` one of `a`. */
  ghost predicate InitialPart(a: seq<Group>, b: seq<Group>) {
    && (forall g :: g in a ==> g in b)
    && (forall g, h :: g in a && h in b && h.ts < g.ts ==> h in a)
  }

  lemma EarlierInFront(a: seq<Group>, b: seq<Group>, i: nat, g: Group)
    requires Increasing(a) && InitialPart(a, b) && i < |a| && g in b && g.ts < a[i].ts
    ensures g in a[..i]
  {
    assert a[i] in a;
    var k :| 0 <= k < |a| && a[k] == g;
    assert a[..i][k] == g;
  }

  lemma NotInFront(b: seq<Group>, i: nat, j: nat)
    requires Increasing(b) && i <= j < |b|
    ensures b[j] !in b[..i]
  {
  }

  /** The first call of `b` that is not in a common front is the next of `a`. */
  lemma NextIsSame(a: seq<Group>, b: seq<Group>, i: nat)
    requires Increasing(a) && Increasing(b) && InitialPart(a, b) && i < |a| && i <= |b| && a[..i] == b[..i]
    ensures i < |b| && a[i] == b[i]
  {
    assert a[i] in a && a[i] in b;
    NotInFront(a, i, i);
    var j :| 0 <= j < |b| && b[j] == a[i];
    forall k | 0 <= k < i
      ensures b[k] == a[k]
    {
      assert b[..i][k] == a[..i][k];
    }
    assert j >= i;
    NotInFront(b, i, i);
    assert b[i] in b;
    assert b[i].ts >= a[i].ts by { if b[i].ts < a[i].ts { EarlierInFront(a, b, i, b[i]); } }
  }

  lemma {:induction false} InitialPartIsPrefix(a: seq<Group>, b: seq<Group>, n: nat)
    requires Increasing(a) && Increasing(b) && InitialPart(a, b) && n <= |a|
    ensures n <= |b| && a[..n] == b[..n]
  {
    if n > 0 {
      InitialPartIsPrefix(a, b, n - 1);
      NextIsSame(a, b, n - 1);
      assert a[..n] == a[..n - 1] + [a[n - 1]] && b[..n] == b[..n - 1] + [b[n - 1]];
    }
  }

  // ---------- facts about the log that the proof needs ----------

  /** What the log and the births look like for one never-urgent equipment if nothing was purged at the Edge or returned. */
  ghost predicate InOrder(born: seq<Birth>, log: seq<Item>, equip: string) {
    && Genuine(born, log)
    && (forall j, k :: 0 <= j < k < |born| ==> born[j].row <= born[k].row)
    && (forall l, m :: 0 <= l < m < |log| && log[l].equip == equip && log[m].equip == equip ==> log[l].id < log[m].id)
  }

  ghost predicate Backed(born: seq<Birth>, log: seq<Item>, equip: string) {
    forall x, i: nat :: x in log && x.equip == equip && 1 <= i < x.id <= |born| && born[i - 1].item.equip == equip ==>
                          i in Ids(log)
  }

  lemma NormalPriority(born: seq<Birth>, taken: seq<Sample>, equip: string, i: nat)
    requires BornFrom(born, taken) && NeverUrgent(taken, equip) && 1 <= i <= |born| && born[i - 1].item.equip == equip
    ensures born[i - 1].priority == NORMAL
  {
    assert BirthFrom(born[i - 1], taken);
  }

  lemma RowsAscend(c: Config, s: State)
    requires Inv(c, s)
    ensures Genuine(s.hist.born, s.hist.log)
    ensures forall j, k :: 0 <= j < k < |s.hist.born| ==> s.hist.born[j].row <= s.hist.born[k].row
  {
  }

  lemma InOrderAt(c: Config, acts: seq<Action>, equip: string, l: nat, m: nat)
    requires NoEdgePurge(acts) && NothingReturns(c, acts) && NeverUrgent(Taken(acts), equip) && l < m < |Run(c, acts).hist.log|
    requires Run(c, acts).hist.log[l].equip == equip && Run(c, acts).hist.log[m].equip == equip
    ensures Run(c, acts).hist.log[l].id < Run(c, acts).hist.log[m].id
  {
    hide Run, Inv, BornOk, LogOk, Genuine, BornFrom, Taken, NeverUrgent, NothingReturns;
    RunKeeps(c, acts);
    RunBornFrom(c, acts);
    var s := Run(c, acts);
    var born, log := s.hist.born, s.hist.log;
    LogIsOk(c, s);
    assert Genuine(born, log) by { LogGenuine(c, s.hist); }
    OrderPerPriority(c, acts, l, m);
    GenuineEquip(born, log, l);
    GenuineEquip(born, log, m);
    NormalPriority(born, Taken(acts), equip, log[l].id);
    NormalPriority(born, Taken(acts), equip, log[m].id);
  }

  lemma LogInOrder(c: Config, acts: seq<Action>, equip: string)
    requires NoEdgePurge(acts) && NothingReturns(c, acts) && NeverUrgent(Taken(acts), equip)
    ensures InOrder(Run(c, acts).hist.born, Run(c, acts).hist.log, equip)
  {
    hide Run, Inv, Genuine, Taken, NeverUrgent, NothingReturns;
    RunKeeps(c, acts);
    var s := Run(c, acts);
    RowsAscend(c, s);
    forall l, m | 0 <= l < m < |s.hist.log| && s.hist.log[l].equip == equip && s.hist.log[m].equip == equip
      ensures s.hist.log[l].id < s.hist.log[m].id
    {
      InOrderAt(c, acts, equip, l, m);
    }
  }

  lemma LogBacked(c: Config, acts: seq<Action>, equip: string)
    requires NoEdgePurge(acts) && NothingReturns(c, acts) && NeverUrgent(Taken(acts), equip) && equip in c.known
    ensures Backed(Run(c, acts).hist.born, Run(c, acts).hist.log, equip)
  {
    hide Run, Inv, LogOk, BornFrom, Taken, NeverUrgent, NothingReturns;
    RunKeeps(c, acts);
    NothingPurgedAtEdge(c, acts);
    RunBornFrom(c, acts);
    var s, h := Run(c, acts), Run(c, acts).hist;
    LogIsOk(c, s);
    forall x, i: nat | x in h.log && x.equip == equip && 1 <= i < x.id <= |h.born| && h.born[i - 1].item.equip == equip
      ensures i in Ids(h.log)
    {
      var m :| 0 <= m < |h.log| && h.log[m] == x;
      BackedAt(c, h, Taken(acts), equip, m, i);
    }
  }

  lemma LogClosed(c: Config, h: History)
    requires LogOk(c, h)
    ensures Genuine(h.born, h.log) && Closed(h.born, h.log, Excused(c, h))
  {
  }

  lemma BackedAt(c: Config, h: History, taken: seq<Sample>, equip: string, m: nat, i: nat)
    requires LogOk(c, h) && h.lost == {} && BornFrom(h.born, taken) && NeverUrgent(taken, equip) && equip in c.known
    requires m < |h.log| && h.log[m].equip == equip
    requires 1 <= i < h.log[m].id <= |h.born| && h.born[i - 1].item.equip == equip
    ensures i in Ids(h.log)
  {
    hide LogOk, Genuine, Closed, BornFrom, NeverUrgent;
    LogClosed(c, h);
    GenuineEquip(h.born, h.log, m);
    NormalPriority(h.born, taken, equip, i);
    NormalPriority(h.born, taken, equip, h.log[m].id);
    EarlierInLog(c, h, m, i);
  }

  lemma EarlierInLog(c: Config, h: History, m: nat, i: nat)
    requires LogOk(c, h) && h.lost == {} && m < |h.log| && Earlier(h.born, i, h.log[m].id)
    requires h.born[i - 1].item.equip in c.known
    ensures i in Ids(h.log)
  {
    hide LogOk, Closed, Genuine, Ids, Earlier;
    LogClosed(c, h);
    ClosedAt(h.born, h.log, Excused(c, h), m, i);
    assert i !in Strangers(h.born, c.known);
    hide Strangers;
    IdsAppend(h.log[..m], h.log[m..]);
    assert h.log == h.log[..m] + h.log[m..];
  }

  // ---------- one equipment ----------

  /** Everything the proof needs to know about a run. */
  ghost predicate Tidy(born: seq<Birth>, taken: seq<Sample>, ingests: seq<seq<Item>>, equip: string) {
    && Stored(born, taken, ingests)
    && InOrder(born, Concat(ingests), equip) && Backed(born, Concat(ingests), equip) && TimeOrdered(taken, equip)
  }

  lemma OrderedIsDistinct(taken: seq<Sample>, equip: string)
    requires TimeOrdered(taken, equip)
    ensures DistinctTimes(taken, equip)
  {
  }

  lemma LaterRowLater(taken: seq<Sample>, equip: string, q: nat, r: nat)
    requires TimeOrdered(taken, equip) && 1 <= q <= |taken| && 1 <= r <= |taken|
    requires taken[q - 1].equip == equip && taken[r - 1].equip == equip
    ensures q < r <==> taken[q - 1].ts < taken[r - 1].ts
  {
    assert q < r ==> taken[q - 1].ts < taken[r - 1].ts;
    assert r < q ==> taken[r - 1].ts < taken[q - 1].ts;
  }

  // ---------- order across ingests ----------

  lemma AcrossIngests(born: seq<Birth>, taken: seq<Sample>, ingests: seq<seq<Item>>, equip: string,
                      p: nat, q: nat, g: Group, h: Group)
    requires Tidy(born, taken, ingests, equip) && p < q < |ingests|
    requires Mentions(ingests[p], g.equip, g.ts) && Mentions(ingests[q], h.equip, h.ts) && g.equip == h.equip == equip
    ensures g.ts < h.ts
  {
    hide Stored, InOrder, Backed, TimeOrdered, Concat, Mentions;
    var l := MentionAt(ingests[p], g.equip, g.ts);
    var m := MentionAt(ingests[q], h.equip, h.ts);
    var x, y := ingests[p][l], ingests[q][m];
    assert x in ingests[p] && y in ingests[q];
    StoredItem(born, taken, ingests, p, l);
    StoredItem(born, taken, ingests, q, m);
    LaterIngestLater(born, ingests, equip, p, q, x, y);
    RowNotSplit(born, taken, ingests, p, q, x, y);
    RowsOrdered(born, Concat(ingests), equip, x.id - 1, y.id - 1);
    LaterRowLater(taken, equip, born[x.id - 1].row, born[y.id - 1].row);
  }

  lemma StoredItem(born: seq<Birth>, taken: seq<Sample>, ingests: seq<seq<Item>>, p: nat, m: nat)
    requires Stored(born, taken, ingests) && p < |ingests| && m < |ingests[p]|
    ensures var x := ingests[p][m];
            && 1 <= x.id <= |born| && x in Concat(ingests) && 1 <= born[x.id - 1].row <= |taken|
            && taken[born[x.id - 1].row - 1].equip == x.equip && taken[born[x.id - 1].row - 1].ts == x.ts
  {
    hide IngestsWhole, AllInOrder, BornFrom, DistinctIds, Genuine, Concat;
    IngestItem(born, ingests, p, m);
    ItemSample(born, taken, ingests[p][m]);
  }

  lemma RowsOrdered(born: seq<Birth>, log: seq<Item>, equip: string, j: nat, k: nat)
    requires InOrder(born, log, equip) && j < k < |born|
    ensures born[j].row <= born[k].row
  {
  }

  lemma LaterIngestLater(born: seq<Birth>, ingests: seq<seq<Item>>, equip: string, p: nat, q: nat, x: Item, y: Item)
    requires InOrder(born, Concat(ingests), equip) && p < q < |ingests|
    requires x in ingests[p] && y in ingests[q] && x.equip == y.equip == equip
    ensures x.id < y.id
  {
    var l :| 0 <= l < |ingests[p]| && ingests[p][l] == x;
    var m :| 0 <= m < |ingests[q]| && ingests[q][m] == y;
    ConcatAt(ingests, p, l);
    ConcatAt(ingests, q, m);
    ConcatShorter(ingests, p, q);
    var log := Concat(ingests);
    assert log[|Concat(ingests[..p])| + l].id < log[|Concat(ingests[..q])| + m].id;
  }

  lemma RoutesIncrease(items: seq<Item>, equip: string)
    ensures Increasing(For(Routes(items), equip))
  {
    RoutesAreTheSamples(items);
    var routes := Routes(items);
    hide Routes, Exact, HasGroup;
    FilterKeepsOrder(routes, (g: Group) => g.equip == equip,
                     (g: Group, h: Group) => g.equip == h.equip ==> g.ts < h.ts);
    var kept := For(routes, equip);
    assert forall i :: 0 <= i < |kept| ==> kept[i] in kept;
  }

  lemma IncreasingAppend(a: seq<Group>, b: seq<Group>)
    requires Increasing(a) && Increasing(b) && forall g, h :: g in a && h in b ==> g.ts < h.ts
    ensures Increasing(a + b)
  {
    var all := a + b;
    forall i, j | 0 <= i < j < |all|
      ensures all[i].ts < all[j].ts
    {
      assert i < |a| ==> all[i] in a;
      assert |a| <= j ==> all[j] in b;
    }
  }

  lemma {:induction false} RoutedIncreases(born: seq<Birth>, taken: seq<Sample>, ingests: seq<seq<Item>>, equip: string, n: nat)
    requires Tidy(born, taken, ingests, equip) && n <= |ingests|
    ensures Increasing(For(Routed(ingests[..n]), equip))
  {
    hide Tidy, Routes, Exact, Mentions;
    if n > 0 {
      var before, last := ingests[..n - 1], ingests[n - 1];
      assert ingests[..n][..n - 1] == before;
      RoutedIncreases(born, taken, ingests, equip, n - 1);
      RoutesIncrease(last, equip);
      FilterAppend(Routed(before), Routes(last), (g: Group) => g.equip == equip);
      forall g, h | g in For(Routed(before), equip) && h in For(Routes(last), equip)
        ensures g.ts < h.ts
      {
        var p := RoutedFrom(before, g);
        RouteExact(last, h);
        assert Mentions(before[p], g.equip, g.ts) && Mentions(last, h.equip, h.ts) by { ExactMentions(g, before[p]); ExactMentions(h, last); }
        AcrossIngests(born, taken, ingests, equip, p, n - 1, g, h);
      }
      IncreasingAppend(For(Routed(before), equip), For(Routes(last), equip));
    }
  }

  // ---------- the theorem ----------

  lemma RunIsTidy(c: Config, acts: seq<Action>, equip: string)
    requires NoEdgePurge(acts) && NothingReturns(c, acts) && equip in c.known && NeverUrgent(Taken(acts), equip) && TimeOrdered(Taken(acts), equip)
    ensures Tidy(Run(c, acts).hist.born, Taken(acts), Run(c, acts).hist.ingests, equip)
    ensures Run(c, acts).hist.log == Concat(Run(c, acts).hist.ingests)
  {
    hide Run, InOrder, Backed, Stored, TimeOrdered, NeverUrgent, Taken, NothingReturns;
    RunStored(c, acts);
    LogInOrder(c, acts, equip);
    LogBacked(c, acts, equip);
  }

  lemma DeliveredInStream(born: seq<Birth>, taken: seq<Sample>, ingests: seq<seq<Item>>, equip: string, g: Group)
    returns (row: nat)
    requires Tidy(born, taken, ingests, equip) && g in For(Routed(ingests), equip)
    ensures 1 <= row <= |taken| && g == CallFor(taken[row - 1]) && g in For(CallsFor(taken), equip)
    ensures exists p, m :: 0 <= p < |ingests| && 0 <= m < |ingests[p]| && ingests[p][m].equip == equip
                           && ingests[p][m].ts == g.ts
  {
    assert Stored(born, taken, ingests) && TimeOrdered(taken, equip);
    OrderedIsDistinct(taken, equip);
    hide Tidy, Stored, TimeOrdered, DistinctTimes, Exact, Routes, ReadingVals;
    var p := RoutedFrom(ingests, g);
    row := RoutedIsSampled(born, taken, ingests, p, g);
    assert CallsFor(taken)[row - 1] == g;
    ExactMentions(g, ingests[p]);
    assert 0 <= p < |ingests|;
    var m :| 0 <= m < |ingests[p]| && ingests[p][m].equip == g.equip && ingests[p][m].ts == g.ts;
  }

  lemma StreamIncreases(taken: seq<Sample>, equip: string)
    requires TimeOrdered(taken, equip)
    ensures Increasing(For(CallsFor(taken), equip))
  {
    hide ReadingVals;
    var calls := CallsFor(taken);
    FilterKeepsOrder(calls, (g: Group) => g.equip == equip,
                     (g: Group, h: Group) => g.equip == equip && h.equip == equip ==> g.ts < h.ts);
    var kept := For(calls, equip);
    assert forall i :: 0 <= i < |kept| ==> kept[i] in kept;
  }

  /** A stored message has its sample delivered. */
  lemma StoredIsDelivered(born: seq<Birth>, taken: seq<Sample>, ingests: seq<seq<Item>>, equip: string, i: nat)
    requires Tidy(born, taken, ingests, equip) && 1 <= i <= |born| && born[i - 1].item.equip == equip
    requires i in Ids(Concat(ingests))
    ensures 1 <= born[i - 1].row <= |taken| && CallFor(taken[born[i - 1].row - 1]) in For(Routed(ingests), equip)
  {
    OrderedIsDistinct(taken, equip);
    assert Stored(born, taken, ingests);
    hide Tidy, TimeOrdered, DistinctTimes, Concat, ReadingVals, Routed, Ids;
    StoredIsRouted(born, taken, ingests, i);
    StoredBirth(born, taken, ingests, i);
  }

  lemma StoredBirth(born: seq<Birth>, taken: seq<Sample>, ingests: seq<seq<Item>>, i: nat)
    requires Stored(born, taken, ingests) && 1 <= i <= |born|
    ensures 1 <= born[i - 1].row <= |taken| && born[i - 1].item.equip == taken[born[i - 1].row - 1].equip
  {
    hide Concat, IngestsWhole, AllInOrder, BornFrom;
    BirthEquip(born, taken, i - 1);
  }

  lemma DeliveredIsInitial(born: seq<Birth>, taken: seq<Sample>, ingests: seq<seq<Item>>, equip: string)
    requires Tidy(born, taken, ingests, equip)
    ensures InitialPart(For(Routed(ingests), equip), For(CallsFor(taken), equip))
  {
    hide Tidy, ReadingVals, Routed;
    var a, b := For(Routed(ingests), equip), For(CallsFor(taken), equip);
    forall g | g in a
      ensures g in b
    {
      var row := DeliveredInStream(born, taken, ingests, equip, g);
    }
    forall g, h | g in a && h in b && h.ts < g.ts
      ensures h in a
    {
      EarlierDelivered(born, taken, ingests, equip, g, h);
    }
  }

  /** A sample has a message, which bears its equipment. */
  lemma RowHasMessage(born: seq<Birth>, taken: seq<Sample>, k: nat) returns (i: nat)
    requires BornFrom(born, taken) && k < |taken|
    ensures i < |born| && born[i].row == k + 1 && born[i].item.equip == taken[k].equip
  {
    RowValsAre(born, taken, k + 1);
    hide RowVals, ReadingVals;
    i :| 0 <= i < |born| && born[i].row == k + 1;
    BirthEquip(born, taken, i);
  }

  lemma LowerRowLowerNumber(born: seq<Birth>, log: seq<Item>, equip: string, i: nat, j: nat)
    requires InOrder(born, log, equip) && i < |born| && j < |born| && born[i].row < born[j].row
    ensures i < j
  {
    if j < i { RowsOrdered(born, log, equip, j, i); }
  }

  lemma EarlierBorn(born: seq<Birth>, taken: seq<Sample>, log: seq<Item>, equip: string, j: nat, k: nat) returns (i: nat)
    requires BornFrom(born, taken) && InOrder(born, log, equip) && TimeOrdered(taken, equip)
    requires j < |born| && 1 <= born[j].row <= |taken| && k < |taken|
    requires taken[born[j].row - 1].equip == equip && taken[k].equip == equip && taken[k].ts < taken[born[j].row - 1].ts
    ensures i < j && born[i].row == k + 1 && born[i].item.equip == equip
  {
    hide BornFrom, InOrder, TimeOrdered;
    LaterRowLater(taken, equip, k + 1, born[j].row);
    i := RowHasMessage(born, taken, k);
    LowerRowLowerNumber(born, log, equip, i, j);
  }

  /** With a message of a later sample stored, so is a message of the earlier one. */
  lemma EarlierStored(born: seq<Birth>, taken: seq<Sample>, ingests: seq<seq<Item>>, equip: string,
                      p: nat, m: nat, k: nat)
    returns (i: nat)
    requires Tidy(born, taken, ingests, equip) && p < |ingests| && m < |ingests[p]| && ingests[p][m].equip == equip
    requires k < |taken| && taken[k].equip == equip && taken[k].ts < ingests[p][m].ts
    ensures i < |born| && born[i].row == k + 1 && born[i].item.equip == equip && i + 1 in Ids(Concat(ingests))
  {
    assert BornFrom(born, taken) by { hide InOrder, Backed, BornFrom, TimeOrdered, Concat, IngestsWhole, AllInOrder; }
    hide Stored, InOrder, Backed, BornFrom, TimeOrdered, Concat, Ids;
    var x := ingests[p][m];
    StoredItem(born, taken, ingests, p, m);
    i := EarlierBorn(born, taken, Concat(ingests), equip, x.id - 1, k);
    BackedBy(born, Concat(ingests), equip, x, i + 1);
  }

  lemma EarlierDelivered(born: seq<Birth>, taken: seq<Sample>, ingests: seq<seq<Item>>, equip: string, g: Group, h: Group)
    requires Tidy(born, taken, ingests, equip)
    requires g in For(Routed(ingests), equip) && h in For(CallsFor(taken), equip) && h.ts < g.ts
    ensures h in For(Routed(ingests), equip)
  {
    hide Tidy, Concat, ReadingVals, Routed, Ids;
    assert h.equip == equip && h in CallsFor(taken);
    var k :| 0 <= k < |taken| && CallsFor(taken)[k] == h;
    var row := DeliveredInStream(born, taken, ingests, equip, g);
    hide For;
    var p, m :| 0 <= p < |ingests| && 0 <= m < |ingests[p]| && ingests[p][m].equip == equip && ingests[p][m].ts == g.ts;
    var i := EarlierStored(born, taken, ingests, equip, p, m, k);
    StoredIsDelivered(born, taken, ingests, equip, i + 1);
  }

  lemma BirthEquip(born: seq<Birth>, taken: seq<Sample>, i: nat)
    requires BornFrom(born, taken) && i < |born|
    ensures 1 <= born[i].row <= |taken| && born[i].item.equip == taken[born[i].row - 1].equip
  {
    assert BirthFrom(born[i], taken);
  }

  lemma BackedBy(born: seq<Birth>, log: seq<Item>, equip: string, x: Item, i: nat)
    requires Backed(born, log, equip) && x in log && x.equip == equip
    requires 1 <= i < x.id <= |born| && born[i - 1].item.equip == equip
    ensures i in Ids(log)
  {
  }

  /** In every run in which the Edge purges nothing and nothing returns after a purge of the MES, and for equipment the
      MES knows that is never urgent and sampled in time order: the calls of `route` for it are a prefix of its samples, each with exactly its
      values; and once the queue is empty they are all of them. */
  lemma RoutedAsSampled(c: Config, acts: seq<Action>, equip: string)
    requires NoEdgePurge(acts) && NothingReturns(c, acts) && equip in c.known && NeverUrgent(Taken(acts), equip) && TimeOrdered(Taken(acts), equip)
    ensures var s := Run(c, acts);
            && For(Routed(s.hist.ingests), equip) <= For(CallsFor(Taken(acts)), equip)
            && (s.queue.rows == [] ==> For(Routed(s.hist.ingests), equip) == For(CallsFor(Taken(acts)), equip))
  {
    hide Run, Tidy, Increasing, InitialPart, TimeOrdered, NeverUrgent, Routed, For, CallsFor, Taken, NothingReturns;
    var s, taken := Run(c, acts), Taken(acts);
    var a, b := For(Routed(s.hist.ingests), equip), For(CallsFor(taken), equip);
    RunIsTidy(c, acts, equip);
    RoutedIncreases(s.hist.born, taken, s.hist.ingests, equip, |s.hist.ingests|);
    assert s.hist.ingests[..|s.hist.ingests|] == s.hist.ingests;
    StreamIncreases(taken, equip);
    DeliveredIsInitial(s.hist.born, taken, s.hist.ingests, equip);
    InitialPartIsPrefix(a, b, |a|);
    assert a[..|a|] == a;
    if s.queue.rows == [] {
      AllDelivered(c, acts, equip);
      PrefixWithAll(a, b);
    }
  }

  lemma PrefixWithAll(a: seq<Group>, b: seq<Group>)
    requires a <= b && Increasing(b) && forall g :: g in b ==> g in a
    ensures a == b
  {
    assert a == b[..|a|];
    if |a| < |b| { NotInFront(b, |a|, |a|); }
  }

  /** With nothing queued, all messages born are in the log. */
  lemma AllStored(c: Config, acts: seq<Action>, i: nat)
    requires NoEdgePurge(acts) && NothingReturns(c, acts) && Run(c, acts).queue.rows == [] && 1 <= i <= |Run(c, acts).hist.born|
    requires Run(c, acts).hist.born[i - 1].item.equip in c.known
    ensures i in Ids(Run(c, acts).hist.log)
  {
    hide Run, Inv, PendingIds, Ids, Strangers, NothingReturns;
    RunKeeps(c, acts);
    NothingPurgedAtEdge(c, acts);
    var s := Run(c, acts);
    BornCount(c, s);
    AtMostOnce(c, acts);
    NonePending();
    KnownNoStranger(s.hist.born, c.known, i);
  }

  lemma NonePending()
    ensures PendingIds([]) == {}
  {
  }

  lemma KnownNoStranger(born: seq<Birth>, known: set<string>, i: nat)
    requires 1 <= i <= |born| && born[i - 1].item.equip in known
    ensures i !in Strangers(born, known)
  {
  }

  lemma SampleDelivered(c: Config, acts: seq<Action>, equip: string, k: nat)
    requires NoEdgePurge(acts) && NothingReturns(c, acts) && equip in c.known && NeverUrgent(Taken(acts), equip) && TimeOrdered(Taken(acts), equip)
    requires Run(c, acts).queue.rows == [] && k < |Taken(acts)| && Taken(acts)[k].equip == equip
    ensures CallFor(Taken(acts)[k]) in For(Routed(Run(c, acts).hist.ingests), equip)
  {
    hide Run, Tidy, TimeOrdered, NeverUrgent, Routed, Taken, ReadingVals, BornFrom, Concat, For, NothingReturns;
    var s, taken := Run(c, acts), Taken(acts);
    RunIsTidy(c, acts, equip);
    RunBornFrom(c, acts);
    var i := RowHasMessage(s.hist.born, taken, k);
    AllStored(c, acts, i + 1);
    StoredIsDelivered(s.hist.born, taken, s.hist.ingests, equip, i + 1);
  }

  lemma AllDelivered(c: Config, acts: seq<Action>, equip: string)
    requires NoEdgePurge(acts) && NothingReturns(c, acts) && equip in c.known && NeverUrgent(Taken(acts), equip) && TimeOrdered(Taken(acts), equip)
    requires Run(c, acts).queue.rows == []
    ensures forall h :: h in For(CallsFor(Taken(acts)), equip) ==> h in For(Routed(Run(c, acts).hist.ingests), equip)
  {
    hide Run, Routed, Taken, ReadingVals, NothingReturns;
    var taken := Taken(acts);
    forall h | h in For(CallsFor(taken), equip)
      ensures h in For(Routed(Run(c, acts).hist.ingests), equip)
    {
      assert h.equip == equip && h in CallsFor(taken);
      var k :| 0 <= k < |taken| && CallsFor(taken)[k] == h;
      SampleDelivered(c, acts, equip, k);
    }
  }
}
