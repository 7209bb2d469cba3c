// The MES side of delivery: the raw ledger with its unique message ids, and the grouping of newly
// stored items back into samples for distribution.

module MesLedger {
  import opened EdgeBuffer
  import opened Sequences

  function Ids(items: seq<Item>): (ids: set<nat>)
    ensures forall i :: 0 <= i < |items| ==> items[i].id in ids
    ensures forall x :: x in ids ==> exists i :: 0 <= i < |items| && items[i].id == x
  {
    set i | 0 <= i < |items| :: items[i].id
  }

  lemma IdsAppend(a: seq<Item>, b: seq<Item>)
    ensures Ids(a + b) == Ids(a) + Ids(b)
  {
    forall x
      ensures x in Ids(a + b) <==> x in Ids(a) + Ids(b)
    {
      if x in Ids(a) {
        var i :| 0 <= i < |a| && a[i].id == x;
        assert (a + b)[i].id == x;
      }
      if x in Ids(b) {
        var i :| 0 <= i < |b| && b[i].id == x;
        assert (a + b)[|a| + i].id == x;
      }
    }
  }

  // ---------- what INSERT OR IGNORE lets in ----------

  /** The items of a request that become new ledger rows, given the ids already stored. */
  function Fresh(stored: set<nat>, known: set<string>, items: seq<Item>): (added: seq<Item>)
    ensures |added| <= |items|
  {
    if items == [] then []
    else
      var added := Fresh(stored, known, items[..|items| - 1]);
      var it := items[|items| - 1];
      if it.equip in known && it.id !in stored && it.id !in Ids(added) then added + [it] else added
  }

  /** How many items come from known equipment. */
  function KnownCount(known: set<string>, items: seq<Item>): nat {
    if items == [] then 0
    else
      KnownCount(known, items[..|items| - 1]) + (if items[|items| - 1].equip in known then 1 else 0)
  }

  // ---------- back to samples ----------

  /** A call of `route`. */
  datatype Group = Group(equip: string, ts: int, vals: map<string, real>)

  /** `groups.setdefault((equip, ts), {})[key] = value` on an insertion-ordered dictionary. */
  function AddTo(groups: seq<Group>, it: Item): seq<Group> {
    if groups == [] then [Group(it.equip, it.ts, map[it.key := it.value])]
    else if groups[0].equip == it.equip && groups[0].ts == it.ts then
      [groups[0].(vals := groups[0].vals[it.key := it.value])] + groups[1..]
    else [groups[0]] + AddTo(groups[1..], it)
  }

  function GroupsOf(items: seq<Item>): seq<Group> {
    if items == [] then [] else AddTo(GroupsOf(items[..|items| - 1]), items[|items| - 1])
  }

  /** `sorted(groups.items(), key=ts)`: stable, so g goes behind everything not later than it. */
  function InsertByTime(s: seq<Group>, g: Group): seq<Group> {
    if s == [] || s[|s| - 1].ts <= g.ts then s + [g]
    else InsertByTime(s[..|s| - 1], g) + [s[|s| - 1]]
  }

  function SortByTime(s: seq<Group>): seq<Group> {
    if s == [] then [] else InsertByTime(SortByTime(s[..|s| - 1]), s[|s| - 1])
  }

  /** The `route` calls one ingest makes, in order. */
  function Routes(added: seq<Item>): seq<Group> {
    SortByTime(GroupsOf(added))
  }

  function MessageIds(items: seq<Item>): (ids: seq<nat>)
    ensures |ids| == |items| && forall i :: 0 <= i < |items| ==> ids[i] == items[i].id
  {
    seq(|items|, i requires 0 <= i < |items| => items[i].id)
  }

  method UpsertGroup(groups: seq<Group>, it: Item) returns (r: seq<Group>)
    ensures r == AddTo(groups, it)
  {
    AddToAtIndex(groups, it);
    var i := 0;
    while i < |groups| && !(groups[i].equip == it.equip && groups[i].ts == it.ts)
      invariant i <= FindGroup(groups, it.equip, it.ts)
    {
      i := i + 1;
    }
    if i == |groups| {
      r := groups + [Group(it.equip, it.ts, map[it.key := it.value])];
    } else {
      r := groups[i := groups[i].(vals := groups[i].vals[it.key := it.value])];
    }
  }

  class MesStore {
    const known: set<string>
    var ledger: seq<Item>
    var routed: seq<Group>
    var ingested: nat
    var dup: nat

    constructor (known: set<string>, stored: seq<Item>)
      ensures this.known == known && ledger == stored && routed == [] && ingested == 0 && dup == 0
    {
      this.known, ledger, routed, ingested, dup := known, stored, [], 0, 0;
    }

    method Ingest(items: seq<Item>) returns (accepted: seq<nat>)
      modifies this
      ensures accepted == MessageIds(items)
      ensures var added := Fresh(Ids(old(ledger)), known, items);
              ledger == old(ledger) + added && routed == old(routed) + Routes(added)
              && ingested == old(ingested) + |added| && dup + |added| == old(dup) + KnownCount(known, items)
    {
      var added;
      accepted, added := Store(items);
      Distribute(added);
      ingested := ingested + |added|;
    }

    /** The inserts: INSERT OR IGNORE on the message id, every id accepted. */
    method Store(items: seq<Item>) returns (accepted: seq<nat>, added: seq<Item>)
      modifies this`ledger, this`dup
      ensures accepted == MessageIds(items) && added == Fresh(Ids(old(ledger)), known, items)
      ensures ledger == old(ledger) + added && dup + |added| == old(dup) + KnownCount(known, items)
    {
      accepted, added := [], [];
      for i := 0 to |items|
        invariant accepted == MessageIds(items)[..i]
        invariant added == Fresh(Ids(old(ledger)), known, items[..i])
        invariant ledger == old(ledger) + added && dup + |added| == old(dup) + KnownCount(known, items[..i])
      {
        assert items[..i + 1][..i] == items[..i];
        var it := items[i];
        accepted := accepted + [it.id];
        if it.equip in known {
          IdsAppend(old(ledger), added);
          if it.id !in Ids(ledger) {
            ledger := ledger + [it];
            added := added + [it];
          } else {
            dup := dup + 1;
          }
        }
      }
      assert items[..|items|] == items;
    }

    /** Grouping the new rows and routing the groups in time order. */
    method Distribute(added: seq<Item>)
      modifies this`routed
      ensures routed == old(routed) + Routes(added)
    {
      var groups: seq<Group> := [];
      for i := 0 to |added|
        invariant groups == GroupsOf(added[..i]) && routed == old(routed)
      {
        assert added[..i + 1][..i] == added[..i];
        groups := UpsertGroup(groups, added[i]);
      }
      assert added[..|added|] == added;
      routed := routed + SortByTime(groups);
    }
  }

  // ---------- what the functions mean ----------

  /** A new row is an item of the request, from known equipment, with an id not stored before;
      and every known item of the request is stored afterwards. */
  lemma {:induction false} FreshStoresTheMissing(stored: set<nat>, known: set<string>, items: seq<Item>)
    ensures var added := Fresh(stored, known, items);
            (forall x :: x in added ==> x in items && x.equip in known && x.id !in stored)
            && (forall i, j :: 0 <= i < j < |added| ==> added[i].id != added[j].id)
            && (forall x :: x in items && x.equip in known ==> x.id in stored + Ids(added))
  {
    if items != [] {
      var n := |items| - 1;
      FreshStoresTheMissing(stored, known, items[..n]);
      var before, after := Fresh(stored, known, items[..n]), Fresh(stored, known, items);
      IdsAppend(before, [items[n]]);
      assert [items[n]][0] == items[n];
      assert items == items[..n] + [items[n]];
      forall x | x in after
        ensures x in items && x.equip in known && x.id !in stored
      {
        if x in before { assert x in items[..n]; }
      }
      forall x | x in items && x.equip in known
        ensures x.id in stored + Ids(after)
      {
        if x in items[..n] { assert x.id in stored + Ids(before); }
      }
    }
  }

  function FindGroup(groups: seq<Group>, equip: string, ts: int): (k: nat)
    ensures k <= |groups|
    ensures k < |groups| ==> groups[k].equip == equip && groups[k].ts == ts
    ensures forall j :: 0 <= j < k ==> groups[j].equip != equip || groups[j].ts != ts
  {
    if groups == [] || (groups[0].equip == equip && groups[0].ts == ts) then 0
    else 1 + FindGroup(groups[1..], equip, ts)
  }

  lemma {:induction false} AddToAtIndex(groups: seq<Group>, it: Item)
    ensures var k := FindGroup(groups, it.equip, it.ts);
            AddTo(groups, it) ==
            if k < |groups| then groups[k := groups[k].(vals := groups[k].vals[it.key := it.value])]
            else groups + [Group(it.equip, it.ts, map[it.key := it.value])]
  {
    if groups != [] && !(groups[0].equip == it.equip && groups[0].ts == it.ts) {
      var rest := groups[1..];
      var k := FindGroup(rest, it.equip, it.ts);
      AddToAtIndex(rest, it);
      assert AddTo(groups, it) == [groups[0]] + AddTo(rest, it) && FindGroup(groups, it.equip, it.ts) == k + 1;
      hide AddTo, FindGroup;
      if k < |rest| {
        var g := rest[k].(vals := rest[k].vals[it.key := it.value]);
        assert groups[k + 1] == rest[k] && [groups[0]] + rest[k := g] == groups[k + 1 := g];
      }
    }
  }

  /** The values the items carry for one (equipment, collect time), later ones winning. */
  function ValsOf(items: seq<Item>, equip: string, ts: int): map<string, real> {
    if items == [] then map[]
    else
      var vals := ValsOf(items[..|items| - 1], equip, ts);
      var it := items[|items| - 1];
      if it.equip == equip && it.ts == ts then vals[it.key := it.value] else vals
  }

  ghost predicate Mentions(items: seq<Item>, equip: string, ts: int) {
    exists i :: 0 <= i < |items| && items[i].equip == equip && items[i].ts == ts
  }

  ghost predicate DistinctGroups(s: seq<Group>) {
    forall i, j :: 0 <= i < j < |s| ==> s[i].equip != s[j].equip || s[i].ts != s[j].ts
  }

  /** The group holds exactly the values the items carry for its equipment and time. */
  ghost predicate Exact(g: Group, items: seq<Item>) {
    Mentions(items, g.equip, g.ts) && g.vals == ValsOf(items, g.equip, g.ts)
  }

  ghost predicate HasGroup(groups: seq<Group>, equip: string, ts: int) {
    exists j :: 0 <= j < |groups| && groups[j].equip == equip && groups[j].ts == ts
  }

  /** One exact group for each (equipment, time) the items mention. */
  ghost predicate GroupsMatch(groups: seq<Group>, items: seq<Item>) {
    && DistinctGroups(groups)
    && (forall j :: 0 <= j < |groups| ==> Exact(groups[j], items))
    && (forall i :: 0 <= i < |items| ==> HasGroup(groups, items[i].equip, items[i].ts))
  }

  lemma {:induction false} AbsentHasNoVals(items: seq<Item>, equip: string, ts: int)
    requires !Mentions(items, equip, ts)
    ensures ValsOf(items, equip, ts) == map[]
  {
    if items != [] {
      var n := |items| - 1;
      assert forall i :: 0 <= i < n ==> items[..n][i] == items[i];
      AbsentHasNoVals(items[..n], equip, ts);
    }
  }

  lemma MentionsMore(items: seq<Item>, it: Item, equip: string, ts: int)
    ensures Mentions(items + [it], equip, ts) <==> Mentions(items, equip, ts) || (it.equip == equip && it.ts == ts)
    ensures ValsOf(items + [it], equip, ts) ==
            if it.equip == equip && it.ts == ts then ValsOf(items, equip, ts)[it.key := it.value]
            else ValsOf(items, equip, ts)
  {
    var more := items + [it];
    assert more[..|more| - 1] == items && more[|items|] == it;
    assert forall i :: 0 <= i < |items| ==> more[i] == items[i];
  }

  lemma AbsentGroup(groups: seq<Group>, items: seq<Item>, it: Item)
    requires GroupsMatch(groups, items) && FindGroup(groups, it.equip, it.ts) == |groups|
    ensures ValsOf(items, it.equip, it.ts) == map[]
  {
    forall i | 0 <= i < |items|
      ensures items[i].equip != it.equip || items[i].ts != it.ts
    {
      assert HasGroup(groups, items[i].equip, items[i].ts);
      var j :| 0 <= j < |groups| && groups[j].equip == items[i].equip && groups[j].ts == items[i].ts;
    }
    AbsentHasNoVals(items, it.equip, it.ts);
  }

  lemma ExactStep(g: Group, items: seq<Item>, it: Item)
    requires Exact(g, items)
    ensures Exact(if g.equip == it.equip && g.ts == it.ts then g.(vals := g.vals[it.key := it.value]) else g, items + [it])
  {
    MentionsMore(items, it, g.equip, g.ts);
  }

  lemma GroupsMatchStep(groups: seq<Group>, items: seq<Item>, it: Item)
    requires GroupsMatch(groups, items)
    ensures GroupsMatch(AddTo(groups, it), items + [it])
  {
    var k := FindGroup(groups, it.equip, it.ts);
    var r, more := AddTo(groups, it), items + [it];
    AddToAtIndex(groups, it);
    if k == |groups| {
      AbsentGroup(groups, items, it);
      MentionsMore(items, it, it.equip, it.ts);
    }
    hide ValsOf, Mentions, AddTo;
    forall j | 0 <= j < |r|
      ensures Exact(r[j], more)
    {
      if j < |groups| { ExactStep(groups[j], items, it); }
    }
    hide Exact;
    forall i | 0 <= i < |more|
      ensures HasGroup(r, more[i].equip, more[i].ts)
    {
      if i < |items| {
        assert HasGroup(groups, items[i].equip, items[i].ts);
        var j :| 0 <= j < |groups| && groups[j].equip == items[i].equip && groups[j].ts == items[i].ts;
        assert r[j].equip == more[i].equip && r[j].ts == more[i].ts;
      } else {
        assert r[k].equip == it.equip && r[k].ts == it.ts;
      }
    }
  }

  lemma {:induction false} GroupsOfMatch(items: seq<Item>)
    ensures GroupsMatch(GroupsOf(items), items)
  {
    if items != [] {
      var n := |items| - 1;
      GroupsOfMatch(items[..n]);
      hide GroupsMatch, AddTo;
      GroupsMatchStep(GroupsOf(items[..n]), items[..n], items[n]);
      assert items == items[..n] + [items[n]];
    }
  }

  ghost predicate SortedByTime(s: seq<Group>) {
    forall i, j :: 0 <= i < j < |s| ==> s[i].ts <= s[j].ts
  }

  ghost predicate Apart(g: Group, s: seq<Group>) {
    forall h :: h in s ==> h.equip != g.equip || h.ts != g.ts
  }

  lemma {:induction false} InsertByTimeMembers(s: seq<Group>, g: Group)
    ensures forall h :: h in InsertByTime(s, g) <==> h in s || h == g
  {
    var n := |s| - 1;
    if s != [] && s[n].ts > g.ts {
      InsertByTimeMembers(s[..n], g);
      assert s == s[..n] + [s[n]];
    }
  }

  lemma {:induction false} InsertByTimeSorted(s: seq<Group>, g: Group)
    requires SortedByTime(s)
    ensures SortedByTime(InsertByTime(s, g))
  {
    var n := |s| - 1;
    if s != [] && s[n].ts > g.ts {
      InsertByTimeSorted(s[..n], g);
      InsertByTimeMembers(s[..n], g);
      var t := InsertByTime(s[..n], g);
      forall i | 0 <= i < |t|
        ensures t[i].ts <= s[n].ts
      {
        assert t[i] in t;
      }
    }
  }

  lemma {:induction false} InsertByTimeDistinct(s: seq<Group>, g: Group)
    requires DistinctGroups(s) && Apart(g, s)
    ensures DistinctGroups(InsertByTime(s, g))
  {
    var n := |s| - 1;
    if s != [] && s[n].ts > g.ts {
      InsertByTimeDistinct(s[..n], g);
      InsertByTimeMembers(s[..n], g);
      var t := InsertByTime(s[..n], g);
      assert s[n] in s;
      forall i | 0 <= i < |t|
        ensures t[i].equip != s[n].equip || t[i].ts != s[n].ts
      {
        assert t[i] in t;
      }
    }
  }

  lemma {:induction false} SortByTimeSorts(s: seq<Group>)
    requires DistinctGroups(s)
    ensures SortedByTime(SortByTime(s)) && DistinctGroups(SortByTime(s))
    ensures forall h :: h in SortByTime(s) <==> h in s
  {
    if s != [] {
      var n := |s| - 1;
      SortByTimeSorts(s[..n]);
      assert s == s[..n] + [s[n]];
      InsertByTimeSorted(SortByTime(s[..n]), s[n]);
      InsertByTimeMembers(SortByTime(s[..n]), s[n]);
      forall h | h in s[..n]
        ensures h.equip != s[n].equip || h.ts != s[n].ts
      {
        var j :| 0 <= j < n && s[..n][j] == h;
        assert s[j] == h;
      }
      InsertByTimeDistinct(SortByTime(s[..n]), s[n]);
    }
  }

  /** `route` is called in time order, once for each (equipment, time) among the new rows, with exactly
      the values those rows carry. */
  lemma RoutesAreTheSamples(added: seq<Item>)
    ensures SortedByTime(Routes(added)) && GroupsMatch(Routes(added), added)
  {
    var groups, routes := GroupsOf(added), Routes(added);
    GroupsOfMatch(added);
    SortByTimeSorts(groups);
    hide Exact, GroupsOf, SortByTime;
    forall j | 0 <= j < |routes|
      ensures Exact(routes[j], added)
    {
      assert routes[j] in routes;
      var k :| 0 <= k < |groups| && groups[k] == routes[j];
    }
    forall i | 0 <= i < |added|
      ensures HasGroup(routes, added[i].equip, added[i].ts)
    {
      assert HasGroup(groups, added[i].equip, added[i].ts);
      var k :| 0 <= k < |groups| && groups[k].equip == added[i].equip && groups[k].ts == added[i].ts;
      assert groups[k] in groups && groups[k] in routes;
      var j :| 0 <= j < |routes| && routes[j] == groups[k];
    }
  }

  /** Duplicates are counted among the items of known equipment alone. */
  lemma {:induction false} KnownCountIsExact(known: set<string>, items: seq<Item>)
    ensures KnownCount(known, items) == |Filter(items, (it: Item) => it.equip in known)|
  {
    if items != [] { KnownCountIsExact(known, items[..|items| - 1]); }
  }

  // ---------- the order of calls for one time ----------

  /** Where the items first mention an equipment at a time. */
  function FirstMention(items: seq<Item>, equip: string, ts: int): (k: nat)
    ensures k <= |items| && (k < |items| ==> items[k].equip == equip && items[k].ts == ts)
    ensures forall j :: 0 <= j < k ==> items[j].equip != equip || items[j].ts != ts
  {
    if items == [] || (items[0].equip == equip && items[0].ts == ts) then 0 else 1 + FirstMention(items[1..], equip, ts)
  }

  ghost predicate InArrivalOrder(groups: seq<Group>, items: seq<Item>) {
    forall i, j :: 0 <= i < j < |groups| ==> FirstMention(items, groups[i].equip, groups[i].ts)
                                             < FirstMention(items, groups[j].equip, groups[j].ts)
  }

  /** Of two groups with the same time the one mentioned first comes first. */
  ghost predicate TiesByArrival(s: seq<Group>, items: seq<Item>) {
    forall i, j :: 0 <= i < j < |s| && s[i].ts == s[j].ts ==> FirstMention(items, s[i].equip, s[i].ts)
                                                              < FirstMention(items, s[j].equip, s[j].ts)
  }

  lemma FirstMentionMore(items: seq<Item>, it: Item, equip: string, ts: int)
    requires Mentions(items, equip, ts)
    ensures FirstMention(items + [it], equip, ts) == FirstMention(items, equip, ts) < |items|
  {
    var k, l := FirstMention(items, equip, ts), FirstMention(items + [it], equip, ts);
    assert forall i :: 0 <= i < |items| ==> (items + [it])[i] == items[i];
  }

  lemma FirstMentionLast(items: seq<Item>, it: Item)
    requires !Mentions(items, it.equip, it.ts)
    ensures FirstMention(items + [it], it.equip, it.ts) == |items|
  {
    assert (items + [it])[|items|] == it;
    assert forall i :: 0 <= i < |items| ==> (items + [it])[i] == items[i];
  }

  lemma AbsentIsUnmentioned(groups: seq<Group>, items: seq<Item>, it: Item)
    requires GroupsMatch(groups, items) && FindGroup(groups, it.equip, it.ts) == |groups|
    ensures !Mentions(items, it.equip, it.ts)
  {
    forall i | 0 <= i < |items|
      ensures items[i].equip != it.equip || items[i].ts != it.ts
    {
      assert HasGroup(groups, items[i].equip, items[i].ts);
      var j :| 0 <= j < |groups| && groups[j].equip == items[i].equip && groups[j].ts == items[i].ts;
    }
  }

  lemma ArrivalStep(groups: seq<Group>, items: seq<Item>, it: Item)
    requires GroupsMatch(groups, items) && InArrivalOrder(groups, items)
    ensures InArrivalOrder(AddTo(groups, it), items + [it])
  {
    AddToAtIndex(groups, it);
    var k := FindGroup(groups, it.equip, it.ts);
    if k == |groups| {
      AbsentIsUnmentioned(groups, items, it);
      FirstMentionLast(items, it);
    }
    var r := AddTo(groups, it);
    forall j | 0 <= j < |groups|
      ensures r[j].equip == groups[j].equip && r[j].ts == groups[j].ts
      ensures FirstMention(items + [it], r[j].equip, r[j].ts) == FirstMention(items, groups[j].equip, groups[j].ts) < |items|
    {
      assert Exact(groups[j], items);
      FirstMentionMore(items, it, groups[j].equip, groups[j].ts);
    }
    hide AddTo, FirstMention, FindGroup, GroupsMatch;
  }

  lemma {:induction false} GroupsArrive(items: seq<Item>)
    ensures InArrivalOrder(GroupsOf(items), items)
  {
    if items != [] {
      var n := |items| - 1;
      GroupsArrive(items[..n]);
      GroupsOfMatch(items[..n]);
      hide GroupsMatch, AddTo, InArrivalOrder;
      ArrivalStep(GroupsOf(items[..n]), items[..n], items[n]);
      assert items == items[..n] + [items[n]];
    } else {
      assert GroupsOf(items) == [];
    }
  }

  lemma TiesAppend(t: seq<Group>, g: Group, items: seq<Item>)
    requires TiesByArrival(t, items)
    requires forall h :: h in t && h.ts == g.ts ==> FirstMention(items, h.equip, h.ts) < FirstMention(items, g.equip, g.ts)
    ensures TiesByArrival(t + [g], items)
  {
    hide FirstMention;
    var r := t + [g];
    forall i, j | 0 <= i < j < |r| && r[i].ts == r[j].ts
      ensures FirstMention(items, r[i].equip, r[i].ts) < FirstMention(items, r[j].equip, r[j].ts)
    {
      if j == |t| { assert t[i] in t; }
    }
  }

  lemma TiesPrefix(s: seq<Group>, n: nat, items: seq<Item>)
    requires n <= |s| && TiesByArrival(s, items)
    ensures TiesByArrival(s[..n], items)
  {
    hide FirstMention;
  }

  lemma {:induction false} InsertKeepsTies(s: seq<Group>, g: Group, items: seq<Item>)
    requires SortedByTime(s) && TiesByArrival(s, items)
    requires forall h :: h in s ==> FirstMention(items, h.equip, h.ts) < FirstMention(items, g.equip, g.ts)
    ensures TiesByArrival(InsertByTime(s, g), items)
  {
    hide FirstMention, TiesByArrival;
    var n := |s| - 1;
    if s == [] || s[n].ts <= g.ts {
      TiesAppend(s, g, items);
    } else {
      TiesPrefix(s, n, items);
      InsertKeepsTies(s[..n], g, items);
      InsertByTimeMembers(s[..n], g);
      LastTies(s, items);
      TiesAppend(InsertByTime(s[..n], g), s[n], items);
    }
  }

  lemma LastTies(s: seq<Group>, items: seq<Item>)
    requires s != [] && TiesByArrival(s, items)
    ensures var last := s[|s| - 1];
            forall h :: h in s[..|s| - 1] && h.ts == last.ts ==>
                          FirstMention(items, h.equip, h.ts) < FirstMention(items, last.equip, last.ts)
  {
    hide FirstMention;
    var n := |s| - 1;
    forall h | h in s[..n] && h.ts == s[n].ts
      ensures FirstMention(items, h.equip, h.ts) < FirstMention(items, s[n].equip, s[n].ts)
    {
      var k :| 0 <= k < n && s[..n][k] == h;
      assert s[k] == h;
    }
  }

  lemma {:induction false} SortKeepsTies(s: seq<Group>, items: seq<Item>)
    requires DistinctGroups(s) && InArrivalOrder(s, items)
    ensures TiesByArrival(SortByTime(s), items)
  {
    hide FirstMention;
    if s != [] {
      var n := |s| - 1;
      SortKeepsTies(s[..n], items);
      SortByTimeSorts(s[..n]);
      forall h | h in SortByTime(s[..n])
        ensures FirstMention(items, h.equip, h.ts) < FirstMention(items, s[n].equip, s[n].ts)
      {
        var k :| 0 <= k < n && s[..n][k] == h;
        assert s[k] == h;
      }
      InsertKeepsTies(SortByTime(s[..n]), s[n], items);
    }
  }

  /** The calls for one time come in the order in which the new rows first mention their equipment. */
  lemma RoutesKeepTheArrivals(added: seq<Item>)
    ensures TiesByArrival(Routes(added), added)
  {
    hide InArrivalOrder, TiesByArrival, GroupsOf, SortByTime;
    GroupsArrive(added);
    GroupsOfMatch(added);
    SortKeepsTies(GroupsOf(added), added);
  }
}
