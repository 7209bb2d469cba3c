// What the MES routes, in every run in which no message returns after a purge of the MES: whatever the Edge
// purges, delays or repeats, and for urgent equipment too, each call of `route` is one sample, and no
// sample is routed twice.

module SampleRouting {
  import opened Outcomes
  import opened Sequences
  import opened EdgeBuffer
  import opened MesLedger
  import opened Delivery
  import opened DeliveryInvariant
  import opened DeliverySteps
  import opened DeliveryIngest
  import opened DeliverySample
  import opened DeliveryTheorems
  import opened RequestOrder
  import opened SamplePath

  // ---------- the values of a routed call ----------

  lemma GenuineEquip(born: seq<Birth>, items: seq<Item>, m: nat)
    requires Genuine(born, items) && m < |items|
    ensures 1 <= items[m].id <= |born| && born[items[m].id - 1].item.equip == items[m].equip
    ensures born[items[m].id - 1].item.ts == items[m].ts && born[items[m].id - 1].item.key == items[m].key
    ensures born[items[m].id - 1].item.value == items[m].value
  {
    assert items[m].(resend := false) == born[items[m].id - 1].item;
  }

  /** items[..m] holds exactly the messages of the row among the first n. */
  ghost predicate HoldsRow(born: seq<Birth>, items: seq<Item>, row: nat, n: nat, m: nat) {
    && n <= |born| && m <= |items| && Genuine(born, items)
    && (forall k :: 0 <= k < n && born[k].row == row ==> k + 1 in Ids(items[..m]))
    && (forall l :: 0 <= l < m && born[items[l].id - 1].row == row ==> items[l].id <= n)
  }

  /** Among the items, those of the row are the ones with this equipment and time. */
  ghost predicate TimeIsRow(born: seq<Birth>, items: seq<Item>, row: nat, equip: string, ts: int) {
    forall l :: 0 <= l < |items| ==>
                  && 1 <= items[l].id <= |born|
                  && (items[l].equip == equip && items[l].ts == ts <==> born[items[l].id - 1].row == row)
  }

  ghost predicate RowItems(born: seq<Birth>, items: seq<Item>, row: nat, equip: string, ts: int) {
    Genuine(born, items) && TimeIsRow(born, items, row, equip, ts) && RowsInOrder(born, items)
  }

  lemma {:induction false} ValsMatch(born: seq<Birth>, items: seq<Item>, row: nat, equip: string, ts: int, n: nat, m: nat)
    requires RowItems(born, items, row, equip, ts) && n <= |born| && m <= |items| && HoldsRow(born, items, row, n, m)
    ensures ValsOf(items[..m], equip, ts) == RowVals(born[..n], row)
    decreases n + m
  {
    hide HoldsRow, Genuine;
    if m > 0 { GenuineEquip(born, items, m - 1); }
    if n == 0 { NoneLeft(born, items, row, m); }
    if m > 0 && born[items[m - 1].id - 1].row != row {
      DropItem(born, items, row, n, m);
      ValsMatch(born, items, row, equip, ts, n, m - 1);
      assert items[..m][..m - 1] == items[..m - 1];
    } else if n > 0 && born[n - 1].row != row {
      DropBirth(born, items, row, n, m);
      ValsMatch(born, items, row, equip, ts, n - 1, m);
      assert born[..n][..n - 1] == born[..n - 1];
    } else if n > 0 {
      DropBoth(born, items, row, equip, ts, n, m);
      ValsMatch(born, items, row, equip, ts, n - 1, m - 1);
      assert items[..m][..m - 1] == items[..m - 1] && born[..n][..n - 1] == born[..n - 1];
    }
  }

  lemma NoneLeft(born: seq<Birth>, items: seq<Item>, row: nat, m: nat)
    requires HoldsRow(born, items, row, 0, m)
    ensures m > 0 ==> born[items[m - 1].id - 1].row != row
  {
    if m > 0 { GenuineEquip(born, items, m - 1); }
  }

  lemma IdsDropLast(items: seq<Item>, m: nat)
    requires 0 < m <= |items|
    ensures Ids(items[..m]) == Ids(items[..m - 1]) + {items[m - 1].id}
  {
    assert items[..m] == items[..m - 1] + [items[m - 1]];
    IdsSnoc(items[..m - 1], items[m - 1]);
  }

  lemma DropItem(born: seq<Birth>, items: seq<Item>, row: nat, n: nat, m: nat)
    requires Genuine(born, items) && HoldsRow(born, items, row, n, m) && m > 0 && born[items[m - 1].id - 1].row != row
    ensures HoldsRow(born, items, row, n, m - 1)
  {
    IdsDropLast(items, m);
  }

  lemma DropBirth(born: seq<Birth>, items: seq<Item>, row: nat, n: nat, m: nat)
    requires Genuine(born, items) && HoldsRow(born, items, row, n, m) && n > 0 && born[n - 1].row != row
    ensures HoldsRow(born, items, row, n - 1, m)
  {
  }

  lemma DropBoth(born: seq<Birth>, items: seq<Item>, row: nat, equip: string, ts: int, n: nat, m: nat)
    requires RowItems(born, items, row, equip, ts) && HoldsRow(born, items, row, n, m)
    requires n > 0 && born[n - 1].row == row && (m > 0 ==> born[items[m - 1].id - 1].row == row)
    ensures m > 0 && items[m - 1].id == n && HoldsRow(born, items, row, n - 1, m - 1)
  {
    RowLast(born, items, row, equip, ts, n, m);
    IdsDropLast(items, m);
    hide Ids, RowItems;
    forall k | 0 <= k < n - 1 && born[k].row == row
      ensures k + 1 in Ids(items[..m - 1])
    {
      assert k + 1 in Ids(items[..m]);
    }
    forall l | 0 <= l < m - 1 && born[items[l].id - 1].row == row
      ensures items[l].id <= n - 1
    {
      RowAscends(born, items, row, equip, ts, l, m - 1);
    }
  }

  lemma RowAscends(born: seq<Birth>, items: seq<Item>, row: nat, equip: string, ts: int, l: nat, m: nat)
    requires RowItems(born, items, row, equip, ts) && l < m < |items|
    requires born[items[l].id - 1].row == row && born[items[m].id - 1].row == row
    ensures items[l].id < items[m].id
  {
  }

  lemma RowLast(born: seq<Birth>, items: seq<Item>, row: nat, equip: string, ts: int, n: nat, m: nat)
    requires RowItems(born, items, row, equip, ts) && HoldsRow(born, items, row, n, m)
    requires n > 0 && born[n - 1].row == row && (m > 0 ==> born[items[m - 1].id - 1].row == row)
    ensures m > 0 && items[m - 1].id == n
  {
    assert n - 1 + 1 in Ids(items[..m]);
    forall k: nat | k < m - 1 && born[items[k].id - 1].row == row
      ensures items[k].id < items[m - 1].id
    {
      RowAscends(born, items, row, equip, ts, k, m - 1);
    }
    var l :| 0 <= l < m && items[..m][l].id == n;
  }

  // ---------- positions in the log ----------

  lemma {:induction false} ConcatAt(lists: seq<seq<Item>>, p: nat, m: nat)
    requires p < |lists| && m < |lists[p]|
    ensures var at := |Concat(lists[..p])| + m;
            at < |Concat(lists)| && Concat(lists)[at] == lists[p][m]
    ensures |Concat(lists[..p])| + |lists[p]| <= |Concat(lists)|
  {
    var n := |lists| - 1;
    if p < n {
      ConcatAt(lists[..n], p, m);
      assert lists[..n][..p] == lists[..p];
    }
  }

  lemma {:induction false} ConcatShorter(lists: seq<seq<Item>>, p: nat, q: nat)
    requires p < q <= |lists|
    ensures |Concat(lists[..p])| + |lists[p]| <= |Concat(lists[..q])|
    decreases q
  {
    assert lists[..q][..q - 1] == lists[..q - 1];
    if p < q - 1 { ConcatShorter(lists, p, q - 1); }
  }

  lemma {:induction false} ConcatMember(lists: seq<seq<Item>>, x: Item) returns (p: nat)
    requires x in Concat(lists)
    ensures p < |lists| && x in lists[p]
  {
    var n := |lists| - 1;
    if x in lists[n] {
      p := n;
    } else {
      p := ConcatMember(lists[..n], x);
    }
  }

  // ---------- one ingest ----------

  /** What is known of the ingests of a run in which nothing returns. */
  ghost predicate Stored(born: seq<Birth>, taken: seq<Sample>, ingests: seq<seq<Item>>) {
    && Genuine(born, Concat(ingests)) && DistinctIds(Concat(ingests))
    && IngestsWhole(born, ingests) && AllInOrder(born, ingests) && BornFrom(born, taken)
  }

  /** No two samples of the equipment have the same collect time. */
  ghost predicate DistinctTimes(taken: seq<Sample>, equip: string) {
    forall j, k :: 0 <= j < k < |taken| && taken[j].equip == equip && taken[k].equip == equip ==> taken[j].ts != taken[k].ts
  }

  lemma IngestItem(born: seq<Birth>, ingests: seq<seq<Item>>, p: nat, m: nat)
    requires Genuine(born, Concat(ingests)) && p < |ingests| && m < |ingests[p]|
    ensures var x := ingests[p][m];
            1 <= x.id <= |born| && x.(resend := false) == born[x.id - 1].item && x in Concat(ingests)
  {
    ConcatAt(ingests, p, m);
  }

  lemma ItemSample(born: seq<Birth>, taken: seq<Sample>, x: Item)
    requires BornFrom(born, taken) && 1 <= x.id <= |born| && x.(resend := false) == born[x.id - 1].item
    ensures var r := born[x.id - 1].row;
            1 <= r <= |taken| && taken[r - 1].equip == x.equip && taken[r - 1].ts == x.ts
  {
    assert BirthFrom(born[x.id - 1], taken);
  }

  lemma SameTimeSameRow(taken: seq<Sample>, equip: string, q: nat, r: nat)
    requires DistinctTimes(taken, equip) && 1 <= q <= |taken| && 1 <= r <= |taken|
    requires taken[q - 1].equip == equip && taken[r - 1].equip == equip
    ensures q == r <==> taken[q - 1].ts == taken[r - 1].ts
  {
    assert q < r ==> taken[q - 1].ts != taken[r - 1].ts;
    assert r < q ==> taken[r - 1].ts != taken[q - 1].ts;
  }

  lemma IngestGenuine(born: seq<Birth>, ingests: seq<seq<Item>>, p: nat)
    requires Genuine(born, Concat(ingests)) && p < |ingests|
    ensures Genuine(born, ingests[p])
  {
    hide Concat;
    forall m | 0 <= m < |ingests[p]|
      ensures 1 <= ingests[p][m].id <= |born| && ingests[p][m].(resend := false) == born[ingests[p][m].id - 1].item
    {
      IngestItem(born, ingests, p, m);
    }
  }

  lemma ItemTimeIsRow(born: seq<Birth>, taken: seq<Sample>, x: Item, equip: string, row: nat)
    requires BornFrom(born, taken) && 1 <= x.id <= |born| && x.(resend := false) == born[x.id - 1].item
    requires DistinctTimes(taken, equip) && 1 <= row <= |taken| && taken[row - 1].equip == equip
    ensures x.equip == equip && x.ts == taken[row - 1].ts <==> born[x.id - 1].row == row
  {
    ItemSample(born, taken, x);
    hide BornFrom, DistinctTimes;
    if x.equip == equip { SameTimeSameRow(taken, equip, born[x.id - 1].row, row); }
  }

  lemma IngestTimeIsRow(born: seq<Birth>, taken: seq<Sample>, items: seq<Item>, equip: string, row: nat)
    requires BornFrom(born, taken) && Genuine(born, items)
    requires DistinctTimes(taken, equip) && 1 <= row <= |taken| && taken[row - 1].equip == equip
    ensures TimeIsRow(born, items, row, equip, taken[row - 1].ts)
  {
    hide BornFrom, DistinctTimes;
    forall m | 0 <= m < |items|
      ensures 1 <= items[m].id <= |born|
      ensures items[m].equip == equip && items[m].ts == taken[row - 1].ts <==> born[items[m].id - 1].row == row
    {
      ItemTimeIsRow(born, taken, items[m], equip, row);
    }
  }

  lemma IngestRow(born: seq<Birth>, taken: seq<Sample>, ingests: seq<seq<Item>>, equip: string, p: nat, row: nat)
    requires Stored(born, taken, ingests) && DistinctTimes(taken, equip) && p < |ingests|
    requires 1 <= row <= |taken| && taken[row - 1].equip == equip
    ensures RowItems(born, ingests[p], row, equip, taken[row - 1].ts)
  {
    hide BornFrom, IngestsWhole, Concat, DistinctTimes, DistinctIds, Genuine, RowsInOrder;
    IngestGenuine(born, ingests, p);
    IngestTimeIsRow(born, taken, ingests[p], equip, row);
    AllAt(born, ingests, p);
  }

  lemma RowInIngest(born: seq<Birth>, ingests: seq<seq<Item>>, p: nat, x: Item, k: nat)
    requires IngestsWhole(born, ingests) && p < |ingests| && x in ingests[p] && k < |born| && 1 <= x.id <= |born|
    requires born[k].row == born[x.id - 1].row
    ensures k + 1 in Ids(ingests[p])
  {
    InIds(ingests[p], x);
    assert SameRow(born, x.id, k + 1);
  }

  /** An ingest that stores one message of a row holds the whole row. */
  lemma IngestHoldsRow(born: seq<Birth>, ingests: seq<seq<Item>>, p: nat, x: Item)
    requires Genuine(born, Concat(ingests)) && IngestsWhole(born, ingests) && p < |ingests|
    requires x in ingests[p] && 1 <= x.id <= |born|
    ensures HoldsRow(born, ingests[p], born[x.id - 1].row, |born|, |ingests[p]|)
  {
    IngestGenuine(born, ingests, p);
    hide IngestsWhole, Concat, Ids;
    var items := ingests[p];
    assert items[..|items|] == items;
    forall k: nat | k < |born| && born[k].row == born[x.id - 1].row
      ensures k + 1 in Ids(items)
    {
      RowInIngest(born, ingests, p, x, k);
    }
  }

  lemma ValsAre(born: seq<Birth>, taken: seq<Sample>, items: seq<Item>, row: nat, equip: string, ts: int)
    requires RowItems(born, items, row, equip, ts) && HoldsRow(born, items, row, |born|, |items|)
    requires BornFrom(born, taken) && 1 <= row <= |taken|
    ensures ValsOf(items, equip, ts) == ReadingVals(taken[row - 1].readings)
  {
    hide RowItems, HoldsRow, BornFrom, ValsOf, RowVals, ReadingVals;
    ValsMatch(born, items, row, equip, ts, |born|, |items|);
    assert items[..|items|] == items && born[..|born|] == born;
    RowValsAre(born, taken, row);
  }

  lemma ExactGroup(g: Group, items: seq<Item>) returns (m: nat)
    requires Exact(g, items)
    ensures g.vals == ValsOf(items, g.equip, g.ts)
    ensures m < |items| && items[m].equip == g.equip && items[m].ts == g.ts
  {
    m :| 0 <= m < |items| && items[m].equip == g.equip && items[m].ts == g.ts;
  }

  /** Every routed call for equipment without repeated collect times is the call for one of its samples,
      values and all. */
  lemma RoutedIsSampled(born: seq<Birth>, taken: seq<Sample>, ingests: seq<seq<Item>>, p: nat, g: Group)
    returns (row: nat)
    requires Stored(born, taken, ingests) && DistinctTimes(taken, g.equip) && p < |ingests| && Exact(g, ingests[p])
    ensures 1 <= row <= |taken| && g == CallFor(taken[row - 1])
  {
    hide IngestsWhole, AllInOrder, BornFrom, DistinctTimes, DistinctIds, Genuine, Concat, ValsOf, ReadingVals, Exact, RowItems,
         HoldsRow;
    var items := ingests[p];
    var m := ExactGroup(g, items);
    assert items[m] in items;
    IngestItem(born, ingests, p, m);
    ItemSample(born, taken, items[m]);
    row := born[items[m].id - 1].row;
    IngestRow(born, taken, ingests, g.equip, p, row);
    IngestHoldsRow(born, ingests, p, items[m]);
    ValsAre(born, taken, items, row, g.equip, g.ts);
  }

  lemma RowValsAre(born: seq<Birth>, taken: seq<Sample>, row: nat)
    requires BornFrom(born, taken) && 1 <= row <= |taken|
    ensures RowVals(born, row) == ReadingVals(taken[row - 1].readings) && RowHasBirth(born, row)
  {
  }

  // ---------- no sample twice ----------

  lemma NotTwice(born: seq<Birth>, ingests: seq<seq<Item>>, p: nat, q: nat, l: nat, m: nat)
    requires DistinctIds(Concat(ingests)) && p < q < |ingests| && l < |ingests[p]| && m < |ingests[q]|
    ensures ingests[p][l].id != ingests[q][m].id
  {
    ConcatAt(ingests, p, l);
    ConcatAt(ingests, q, m);
    ConcatShorter(ingests, p, q);
    var log := Concat(ingests);
    assert log[|Concat(ingests[..p])| + l].id != log[|Concat(ingests[..q])| + m].id;
  }

  /** A sample is stored in one ingest. */
  lemma RowNotSplit(born: seq<Birth>, taken: seq<Sample>, ingests: seq<seq<Item>>, p: nat, q: nat, x: Item, y: Item)
    requires Stored(born, taken, ingests) && p < q < |ingests| && x in ingests[p] && y in ingests[q]
    requires 1 <= x.id <= |born| && 1 <= y.id <= |born|
    ensures born[x.id - 1].row != born[y.id - 1].row
  {
    hide IngestsWhole, Concat, Genuine, DistinctIds, AllInOrder, BornFrom;
    if born[x.id - 1].row == born[y.id - 1].row {
      RowInIngest(born, ingests, p, x, y.id - 1);
      var l :| 0 <= l < |ingests[p]| && ingests[p][l].id == y.id;
      var m :| 0 <= m < |ingests[q]| && ingests[q][m] == y;
      NotTwice(born, ingests, p, q, l, m);
    }
  }

  /** Where a routed call comes from. */
  lemma {:induction false} RoutedFrom(ingests: seq<seq<Item>>, g: Group) returns (p: nat)
    requires g in Routed(ingests)
    ensures p < |ingests| && g in Routes(ingests[p]) && Exact(g, ingests[p])
  {
    var n := |ingests| - 1;
    hide Exact, Routes;
    if g in Routes(ingests[n]) {
      p := n;
      RouteExact(ingests[n], g);
    } else {
      p := RoutedFrom(ingests[..n], g);
    }
  }

  lemma RouteExact(items: seq<Item>, g: Group)
    requires g in Routes(items)
    ensures Exact(g, items)
  {
    RoutesAreTheSamples(items);
    hide Routes, Exact;
    var j :| 0 <= j < |Routes(items)| && Routes(items)[j] == g;
  }

  lemma {:induction false} RoutedHas(ingests: seq<seq<Item>>, p: nat, g: Group)
    requires p < |ingests| && g in Routes(ingests[p])
    ensures g in Routed(ingests)
  {
    var n := |ingests| - 1;
    if p < n { RoutedHas(ingests[..n], p, g); }
  }

  lemma ExactMentions(g: Group, items: seq<Item>)
    requires Exact(g, items)
    ensures Mentions(items, g.equip, g.ts)
  {
  }

  lemma MentionAt(items: seq<Item>, equip: string, ts: int) returns (m: nat)
    requires Mentions(items, equip, ts)
    ensures m < |items| && items[m].equip == equip && items[m].ts == ts
  {
    m :| 0 <= m < |items| && items[m].equip == equip && items[m].ts == ts;
  }

  lemma ItemsApart(born: seq<Birth>, taken: seq<Sample>, ingests: seq<seq<Item>>, p: nat, q: nat, l: nat, m: nat)
    requires Stored(born, taken, ingests) && p < q < |ingests| && l < |ingests[p]| && m < |ingests[q]|
    requires DistinctTimes(taken, ingests[p][l].equip)
    ensures ingests[p][l].equip != ingests[q][m].equip || ingests[p][l].ts != ingests[q][m].ts
  {
    hide IngestsWhole, AllInOrder, BornFrom, DistinctTimes, DistinctIds, Genuine, Concat;
    var x, y := ingests[p][l], ingests[q][m];
    assert x in ingests[p] && y in ingests[q];
    IngestItem(born, ingests, p, l);
    IngestItem(born, ingests, q, m);
    ItemSample(born, taken, x);
    ItemSample(born, taken, y);
    RowNotSplit(born, taken, ingests, p, q, x, y);
    if x.equip == y.equip { SameTimeSameRow(taken, x.equip, born[x.id - 1].row, born[y.id - 1].row); }
  }

  lemma ApartAcross(born: seq<Birth>, taken: seq<Sample>, ingests: seq<seq<Item>>, p: nat, q: nat, g: Group, h: Group)
    requires Stored(born, taken, ingests) && DistinctTimes(taken, g.equip) && p < q < |ingests|
    requires Mentions(ingests[p], g.equip, g.ts) && Mentions(ingests[q], h.equip, h.ts)
    ensures g.equip != h.equip || g.ts != h.ts
  {
    hide Stored, DistinctTimes, Mentions;
    var l := MentionAt(ingests[p], g.equip, g.ts);
    var m := MentionAt(ingests[q], h.equip, h.ts);
    ItemsApart(born, taken, ingests, p, q, l, m);
  }

  lemma DistinctGroupsAppend(a: seq<Group>, b: seq<Group>)
    requires DistinctGroups(a) && DistinctGroups(b) && forall g, h :: g in a && h in b ==> g.equip != h.equip || g.ts != h.ts
    ensures DistinctGroups(a + b)
  {
    var all := a + b;
    forall i, j | 0 <= i < j < |all|
      ensures all[i].equip != all[j].equip || all[i].ts != all[j].ts
    {
      assert i < |a| ==> all[i] in a;
      assert |a| <= j ==> all[j] in b;
    }
  }

  lemma {:induction false} RoutedApart(born: seq<Birth>, taken: seq<Sample>, ingests: seq<seq<Item>>, n: nat)
    requires Stored(born, taken, ingests) && (forall equip :: DistinctTimes(taken, equip)) && n <= |ingests|
    ensures DistinctGroups(Routed(ingests[..n]))
  {
    hide Stored, DistinctTimes, Routes, Exact, Mentions, DistinctGroups;
    if n == 0 {
      assert DistinctGroups([]) by { NoGroups(); }
    } else {
      var before, last := ingests[..n - 1], ingests[n - 1];
      assert ingests[..n][..n - 1] == before;
      RoutedApart(born, taken, ingests, n - 1);
      assert DistinctGroups(Routes(last)) by { RoutesApart(last); }
      forall g, h | g in Routed(before) && h in Routes(last)
        ensures g.equip != h.equip || g.ts != h.ts
      {
        var p := RoutedFrom(before, g);
        RouteExact(last, h);
        ExactMentions(g, before[p]);
        ExactMentions(h, last);
        assert DistinctTimes(taken, g.equip);
        ApartAcross(born, taken, ingests, p, n - 1, g, h);
      }
      DistinctGroupsAppend(Routed(before), Routes(last));
    }
  }

  lemma NoGroups()
    ensures DistinctGroups([])
  {
  }

  lemma RoutesApart(items: seq<Item>)
    ensures DistinctGroups(Routes(items))
  {
    RoutesAreTheSamples(items);
    hide Routes, Exact;
  }

  // ---------- the theorem ----------

  lemma RunStored(c: Config, acts: seq<Action>)
    requires NothingReturns(c, acts)
    ensures Stored(Run(c, acts).hist.born, Taken(acts), Run(c, acts).hist.ingests)
    ensures Run(c, acts).hist.log == Concat(Run(c, acts).hist.ingests)
  {
    hide Run, Inv, LedgerOk, LogOk, IngestsWhole, BornFrom, Taken, Genuine, DistinctIds, PendingIds, Ids, Strangers,
         AllInOrder, NothingReturns;
    RunKeeps(c, acts);
    var s := Run(c, acts);
    LogIsConcat(c, s);
    LogIsOk(c, s);
    LogGenuine(c, s.hist);
    AtMostOnce(c, acts);
    RunIngestsWhole(c, acts);
    RunInOrder(c, acts);
    RunBornFrom(c, acts);
  }

  lemma LogIsConcat(c: Config, s: State)
    requires Inv(c, s)
    ensures s.hist.log == Concat(s.hist.ingests)
  {
  }

  /** A stored message has its sample routed. */
  lemma StoredIsRouted(born: seq<Birth>, taken: seq<Sample>, ingests: seq<seq<Item>>, i: nat)
    requires Stored(born, taken, ingests) && 1 <= i <= |born| && DistinctTimes(taken, born[i - 1].item.equip)
    requires i in Ids(Concat(ingests))
    ensures 1 <= born[i - 1].row <= |taken| && CallFor(taken[born[i - 1].row - 1]) in Routed(ingests)
  {
    hide IngestsWhole, AllInOrder, BornFrom, DistinctTimes, DistinctIds, Genuine, Concat, ValsOf, ReadingVals, RowVals, Routes,
         Mentions;
    var n :| 0 <= n < |Concat(ingests)| && Concat(ingests)[n].id == i;
    var x := Concat(ingests)[n];
    assert x in Concat(ingests);
    var p := ConcatMember(ingests, x);
    var m :| 0 <= m < |ingests[p]| && ingests[p][m] == x;
    IngestItem(born, ingests, p, m);
    ItemSample(born, taken, x);
    assert x.equip == born[i - 1].item.equip;
    RoutesAreTheSamples(ingests[p]);
    hide Exact;
    assert HasGroup(Routes(ingests[p]), x.equip, x.ts);
    var j :| 0 <= j < |Routes(ingests[p])| && Routes(ingests[p])[j].equip == x.equip && Routes(ingests[p])[j].ts == x.ts;
    var g := Routes(ingests[p])[j];
    assert g in Routes(ingests[p]);
    RoutedHas(ingests, p, g);
    RouteExact(ingests[p], g);
    var row := RoutedIsSampled(born, taken, ingests, p, g);
    SameTimeSameRow(taken, x.equip, row, born[i - 1].row);
  }

  /** In every run in which nothing returns, and for samples of which no two have the same equipment and collect
      time: each call of `route` is the call for one sample with exactly its values; no sample is
      routed twice; and a sample is routed as soon as one of its messages is stored. */
  lemma SamplesRoutedOnce(c: Config, acts: seq<Action>)
    requires NothingReturns(c, acts) && forall equip :: DistinctTimes(Taken(acts), equip)
    ensures var s, routed := Run(c, acts), Routed(Run(c, acts).hist.ingests);
            && (forall g :: g in routed ==> g in CallsFor(Taken(acts)))
            && DistinctGroups(routed)
            && (forall i: nat :: i in Ids(s.hist.log) ==>
                  && 1 <= i <= |s.hist.born| && 1 <= s.hist.born[i - 1].row <= |Taken(acts)|
                  && CallFor(Taken(acts)[s.hist.born[i - 1].row - 1]) in routed)
  {
    hide Run, Taken, Stored, DistinctTimes, Routed, ReadingVals, DistinctGroups, Concat, Ids, NothingReturns;
    RunStored(c, acts);
    var s, taken := Run(c, acts), Taken(acts);
    var born, ingests := s.hist.born, s.hist.ingests;
    RoutedApart(born, taken, ingests, |ingests|);
    assert ingests[..|ingests|] == ingests;
    forall g | g in Routed(ingests)
      ensures g in CallsFor(taken)
    {
      CallIsSampled(born, taken, ingests, g);
    }
    forall i: nat | i in Ids(s.hist.log)
      ensures 1 <= i <= |born| && 1 <= born[i - 1].row <= |taken| && CallFor(taken[born[i - 1].row - 1]) in Routed(ingests)
    {
      StoredInRange(born, taken, ingests, i);
      StoredIsRouted(born, taken, ingests, i);
    }
  }

  lemma StoredInRange(born: seq<Birth>, taken: seq<Sample>, ingests: seq<seq<Item>>, i: nat)
    requires Stored(born, taken, ingests) && i in Ids(Concat(ingests))
    ensures 1 <= i <= |born|
  {
    hide IngestsWhole, AllInOrder, BornFrom, DistinctIds, Concat;
    GenuineIds(born, Concat(ingests), i);
  }

  lemma CallIsSampled(born: seq<Birth>, taken: seq<Sample>, ingests: seq<seq<Item>>, g: Group)
    requires Stored(born, taken, ingests) && DistinctTimes(taken, g.equip) && g in Routed(ingests)
    ensures g in CallsFor(taken)
  {
    hide Stored, DistinctTimes, Exact, Routes, ReadingVals;
    var p := RoutedFrom(ingests, g);
    var row := RoutedIsSampled(born, taken, ingests, p, g);
    assert CallsFor(taken)[row - 1] == g;
  }

  // ---------- and only then ----------

  /** Two ingests that store messages of the same equipment and time lead to two calls for them. */
  lemma RoutedTwice(ingests: seq<seq<Item>>, p: nat, q: nat, x: Item, y: Item)
    requires p < q < |ingests| && x in ingests[p] && y in ingests[q] && x.equip == y.equip && x.ts == y.ts
    ensures !DistinctGroups(Routed(ingests))
  {
    hide Routes;
    var g := CallForItem(ingests[p], x);
    var h := CallForItem(ingests[q], y);
    var before := Routed(ingests[..q]);
    assert ingests[..q][p] == ingests[p];
    RoutedHas(ingests[..q], p, g);
    RoutedSplits(ingests, q + 1);
    assert ingests[..q + 1][..q] == ingests[..q];
    var all := Routed(ingests[..q + 1]);
    var j :| 0 <= j < |before| && before[j] == g;
    var k :| 0 <= k < |Routes(ingests[q])| && Routes(ingests[q])[k] == h;
    assert all[j] == g && all[|before| + k] == h;
    assert Routed(ingests)[j] == g && Routed(ingests)[|before| + k] == h;
  }

  lemma CallForItem(items: seq<Item>, x: Item) returns (g: Group)
    requires x in items
    ensures g in Routes(items) && g.equip == x.equip && g.ts == x.ts
  {
    RoutesAreTheSamples(items);
    hide Routes, Exact;
    var m :| 0 <= m < |items| && items[m] == x;
    assert HasGroup(Routes(items), items[m].equip, items[m].ts);
    var j :| 0 <= j < |Routes(items)| && Routes(items)[j].equip == x.equip && Routes(items)[j].ts == x.ts;
    g := Routes(items)[j];
  }

  lemma {:induction false} RoutedSplits(ingests: seq<seq<Item>>, n: nat)
    requires n <= |ingests|
    ensures Routed(ingests[..n]) <= Routed(ingests)
    decreases |ingests| - n
  {
    if n == |ingests| {
      assert ingests[..n] == ingests;
    } else {
      RoutedSplits(ingests, n + 1);
      assert ingests[..n + 1][..n] == ingests[..n];
    }
  }

  /** Where a position of the log lies. */
  lemma {:induction false} ConcatWhere(lists: seq<seq<Item>>, l: nat) returns (p: nat, m: nat)
    requires l < |Concat(lists)|
    ensures p < |lists| && m < |lists[p]| && lists[p][m] == Concat(lists)[l] && l == |Concat(lists[..p])| + m
  {
    var n := |lists| - 1;
    if l < |Concat(lists[..n])| {
      p, m := ConcatWhere(lists[..n], l);
      assert lists[..n][..p] == lists[..p];
    } else {
      p, m := n, l - |Concat(lists[..n])|;
    }
  }

  lemma TwiceInOneIngest(c: Config, s: State, a: Action)
    requires forall p :: 0 <= p < |s.hist.ingests| ==> DistinctIds(s.hist.ingests[p])
    ensures forall p :: 0 <= p < |Step(c, s, a).hist.ingests| ==> DistinctIds(Step(c, s, a).hist.ingests[p])
  {
    hide NextBatch, Payload, Fresh, Ids, PendingIds, Filter, AllAccepted, ResentCount, Marked, Purged, Old, DistinctIds;
    if a.Process? && a.req < |s.net| { FreshFacts(Ids(s.ledger), c.known, s.net[a.req]); }
  }

  lemma {:induction false} IngestsDistinct(c: Config, acts: seq<Action>)
    ensures forall p :: 0 <= p < |Run(c, acts).hist.ingests| ==> DistinctIds(Run(c, acts).hist.ingests[p])
  {
    hide Step, DistinctIds;
    if acts != [] {
      IngestsDistinct(c, acts[..|acts| - 1]);
      TwiceInOneIngest(c, Run(c, acts[..|acts| - 1]), acts[|acts| - 1]);
    }
  }

  lemma RepeatIsRoutedTwice(c: Config, acts: seq<Action>, l: nat, m: nat)
    requires l < m < |Run(c, acts).hist.log| && Run(c, acts).hist.log[l].id == Run(c, acts).hist.log[m].id
    ensures !DistinctGroups(Routed(Run(c, acts).hist.ingests))
  {
    hide Run, Inv, Genuine, Routed, DistinctGroups, Concat;
    RunKeeps(c, acts);
    var s := Run(c, acts);
    var ingests, log := s.hist.ingests, s.hist.log;
    LogIsConcat(c, s);
    LogIsOk(c, s);
    LogGenuine(c, s.hist);
    IngestsDistinct(c, acts);
    var p, i := ConcatWhere(ingests, l);
    var q, j := ConcatWhere(ingests, m);
    if q < p { ConcatShorter(ingests, q, p); }
    assert p != q;
    GenuineEquip(s.hist.born, log, l);
    GenuineEquip(s.hist.born, log, m);
    RoutedTwice(ingests, p, q, ingests[p][i], ingests[q][j]);
  }

  /** The condition is exact: for samples with distinct equipment and collect time no sample is routed twice if and only
      if nothing returns. */
  lemma RoutedOnceExactly(c: Config, acts: seq<Action>)
    requires forall equip :: DistinctTimes(Taken(acts), equip)
    ensures DistinctGroups(Routed(Run(c, acts).hist.ingests)) <==> NothingReturns(c, acts)
  {
    StoredOnceExactly(c, acts);
    if NothingReturns(c, acts) {
      hide NothingReturns, DistinctGroups, Routed, Run, Taken;
      SamplesRoutedOnce(c, acts);
    } else {
      hide NothingReturns, DistinctGroups, Routed, Run, Taken;
      var log := Run(c, acts).hist.log;
      var l, m :| 0 <= l < m < |log| && log[l].id == log[m].id;
      RepeatIsRoutedTwice(c, acts, l, m);
    }
  }
}
