// The map of the PLC's word memory: every device polled by a PLC owns one block, no two blocks overlap.

module MemoryMap {
  import opened Outcomes

  /** `owner` is the PLC that polls the device, if one does; `polled` says the device needs a block. */
  datatype Equip = Equip(code: string, owner: Option<string>, polled: bool)

  datatype Entry = Entry(code: string, base: int)

  datatype PlcBlocks = PlcBlocks(plc: string, entries: seq<Entry>)

  datatype Verdict = Accepted | UnknownPlc | UnknownEquip | MappedTwice | WrongOwner | Overlap | NotMapped

  // ---------- spans ----------

  /** The half-open spans [x, x + words) and [y, y + words) share no word. */
  predicate Disjoint(x: int, y: int, words: int) {
    x + words <= y || y + words <= x
  }

  ghost predicate AllDisjoint(starts: seq<int>, words: int) {
    forall i, j :: 0 <= i < j < |starts| ==> Disjoint(starts[i], starts[j], words)
  }

  function Insert(x: int, s: seq<int>): (r: seq<int>)
    ensures |r| == |s| + 1
    ensures forall y :: y in r <==> y == x || y in s
  {
    if s == [] || x <= s[0] then [x] + s
    else
      assert s == [s[0]] + s[1..];
      [s[0]] + Insert(x, s[1..])
  }

  /** `spans.sort()`: all spans have the same length, so they sort by start. */
  function Sorted(s: seq<int>): (r: seq<int>)
    ensures |r| == |s|
    ensures forall y :: y in r <==> y in s
  {
    if s == [] then []
    else
      assert s == s[..|s| - 1] + [s[|s| - 1]];
      Insert(s[|s| - 1], Sorted(s[..|s| - 1]))
  }

  ghost predicate Ascending(s: seq<int>) {
    forall i, j :: 0 <= i < j < |s| ==> s[i] <= s[j]
  }

  lemma {:induction false} InsertAscends(x: int, s: seq<int>)
    requires Ascending(s)
    ensures Ascending(Insert(x, s))
  {
    if s != [] && x > s[0] {
      InsertAscends(x, s[1..]);
      var r := Insert(x, s[1..]);
      forall j | 0 <= j < |r|
        ensures s[0] <= r[j]
      {
        assert r[j] in r;
        if r[j] != x {
          var k :| 0 <= k < |s[1..]| && s[1..][k] == r[j];
          assert s[k + 1] == r[j];
        }
      }
    }
  }

  lemma {:induction false} SortedAscends(s: seq<int>)
    ensures Ascending(Sorted(s))
  {
    if s != [] {
      SortedAscends(s[..|s| - 1]);
      InsertAscends(s[|s| - 1], Sorted(s[..|s| - 1]));
    }
  }

  ghost predicate ClearOf(x: int, s: seq<int>, words: int) {
    forall y :: y in s ==> Disjoint(x, y, words)
  }

  lemma {:induction false} InsertDisjoint(x: int, s: seq<int>, words: int)
    ensures AllDisjoint(Insert(x, s), words) <==> AllDisjoint(s, words) && ClearOf(x, s, words)
  {
    if s == [] || x <= s[0] {
      HeadDisjoint(x, s, words);
    } else {
      InsertDisjoint(x, s[1..], words);
      assert s == [s[0]] + s[1..];
      HeadDisjoint(s[0], s[1..], words);
      HeadDisjoint(s[0], Insert(x, s[1..]), words);
      ClearSplit(x, s, words);
      ClearInsert(s[0], x, s[1..], words);
    }
  }

  lemma HeadDisjoint(x: int, s: seq<int>, words: int)
    ensures AllDisjoint([x] + s, words) <==> AllDisjoint(s, words) && ClearOf(x, s, words)
  {
    var r := [x] + s;
    if AllDisjoint(r, words) {
      forall i, j | 0 <= i < j < |s|
        ensures Disjoint(s[i], s[j], words)
      {
        assert Disjoint(r[i + 1], r[j + 1], words);
      }
      forall y | y in s
        ensures Disjoint(x, y, words)
      {
        var k :| 0 <= k < |s| && s[k] == y;
        assert Disjoint(r[0], r[k + 1], words);
      }
    }
    if AllDisjoint(s, words) && ClearOf(x, s, words) {
      forall i, j | 0 <= i < j < |r|
        ensures Disjoint(r[i], r[j], words)
      {
        assert r[j] == s[j - 1] && s[j - 1] in s;
        if i > 0 { assert r[i] == s[i - 1]; }
      }
    }
  }

  lemma ClearSplit(x: int, s: seq<int>, words: int)
    requires s != []
    ensures ClearOf(x, s, words) <==> Disjoint(x, s[0], words) && ClearOf(x, s[1..], words)
  {
    assert s == [s[0]] + s[1..];
  }

  lemma ClearInsert(x: int, y: int, s: seq<int>, words: int)
    ensures ClearOf(x, Insert(y, s), words) <==> Disjoint(x, y, words) && ClearOf(x, s, words)
  {
  }

  /** Sorting does not change whether spans overlap. */
  lemma {:induction false} SortingKeepsDisjoint(s: seq<int>, words: int)
    ensures AllDisjoint(Sorted(s), words) <==> AllDisjoint(s, words)
  {
    if s != [] {
      var n := |s| - 1;
      var before, x := s[..n], s[n];
      SortingKeepsDisjoint(before, words);
      InsertDisjoint(x, Sorted(before), words);
      LastDisjoint(before, x, words);
      assert s == before + [x];
      assert ClearOf(x, Sorted(before), words) <==> ClearOf(x, before, words);
    }
  }

  lemma LastDisjoint(s: seq<int>, x: int, words: int)
    ensures AllDisjoint(s + [x], words) <==> AllDisjoint(s, words) && ClearOf(x, s, words)
  {
    var r := s + [x];
    if AllDisjoint(r, words) {
      forall i, j | 0 <= i < j < |s|
        ensures Disjoint(s[i], s[j], words)
      {
        assert Disjoint(r[i], r[j], words);
      }
      forall y | y in s
        ensures Disjoint(x, y, words)
      {
        var k :| 0 <= k < |s| && s[k] == y;
        assert Disjoint(r[k], r[|s|], words);
      }
    }
    if AllDisjoint(s, words) && ClearOf(x, s, words) {
      forall i, j | 0 <= i < j < |r|
        ensures Disjoint(r[i], r[j], words)
      {
        assert r[i] == s[i] && s[i] in s;
      }
    }
  }

  /** The check of the source looks at neighbours only. */
  ghost predicate NeighboursApart(s: seq<int>, words: int) {
    forall k :: 0 <= k < |s| - 1 ==> s[k] + words <= s[k + 1]
  }

  /** After sorting, comparing neighbours finds every overlap. */
  lemma NeighboursSuffice(s: seq<int>, words: int)
    ensures NeighboursApart(Sorted(s), words) <==> AllDisjoint(s, words)
  {
    SortedAscends(s);
    SortingKeepsDisjoint(s, words);
    var t := Sorted(s);
    if AllDisjoint(t, words) {
      forall k | 0 <= k < |t| - 1
        ensures t[k] + words <= t[k + 1]
      {
        assert Disjoint(t[k], t[k + 1], words);
        NoNegativeOverlap(t[k], t[k + 1], words);
      }
    }
    if NeighboursApart(t, words) {
      forall i, j | 0 <= i < j < |t|
        ensures Disjoint(t[i], t[j], words)
      {
        assert t[i] + words <= t[i + 1];
        assert t[i + 1] <= t[j];
      }
    }
  }

  lemma NoNegativeOverlap(x: int, y: int, words: int)
    requires x <= y && Disjoint(x, y, words)
    ensures x + words <= y
  {
  }

  // ---------- the check ----------

  function FindEquip(equips: seq<Equip>, code: string): (r: Option<Equip>)
    ensures r.Some? ==> r.value in equips && r.value.code == code
    ensures r.None? ==> forall e :: e in equips ==> e.code != code
  {
    if equips == [] then None
    else if equips[0].code == code then Some(equips[0])
    else
      assert equips == [equips[0]] + equips[1..];
      FindEquip(equips[1..], code)
  }

  function Starts(entries: seq<Entry>, diagBase: int): (r: seq<int>)
    ensures |r| == |entries| + 1 && r[|entries|] == diagBase
    ensures forall k :: 0 <= k < |entries| ==> r[k] == entries[k].base
  {
    seq(|entries|, k requires 0 <= k < |entries| => entries[k].base) + [diagBase]
  }

  /** What the dictionaries and the earlier checks guarantee: no key occurs twice. */
  ghost predicate KeysDistinct(equips: seq<Equip>, blocks: seq<PlcBlocks>) {
    && (forall i, j :: 0 <= i < j < |equips| ==> equips[i].code != equips[j].code)
    && (forall p, q :: 0 <= p < q < |blocks| ==> blocks[p].plc != blocks[q].plc)
    && (forall p :: 0 <= p < |blocks| ==> CodesDistinct(blocks[p].entries))
  }

  ghost predicate CodesDistinct(entries: seq<Entry>) {
    forall k, l :: 0 <= k < l < |entries| ==> entries[k].code != entries[l].code
  }

  ghost predicate EntryFits(equips: seq<Equip>, plc: string, e: Entry) {
    FindEquip(equips, e.code).Some? && FindEquip(equips, e.code).value.owner == Some(plc)
  }

  /** A PLC's part of the map: its own devices, on spans that do not overlap each other or the diagnostics. */
  ghost predicate PlcFits(plcs: set<string>, equips: seq<Equip>, b: PlcBlocks, words: int, diagBase: int) {
    && b.plc in plcs
    && (forall k :: 0 <= k < |b.entries| ==> EntryFits(equips, b.plc, b.entries[k]))
    && AllDisjoint(Starts(b.entries, diagBase), words)
  }

  ghost predicate HasEntry(entries: seq<Entry>, code: string) {
    exists k :: 0 <= k < |entries| && entries[k].code == code
  }

  ghost predicate Mapped(blocks: seq<PlcBlocks>, code: string) {
    exists p, k :: 0 <= p < |blocks| && 0 <= k < |blocks[p].entries| && blocks[p].entries[k].code == code
  }

  ghost predicate MapFits(plcs: set<string>, equips: seq<Equip>, blocks: seq<PlcBlocks>, words: int, diagBase: int) {
    && (forall p :: 0 <= p < |blocks| ==> PlcFits(plcs, equips, blocks[p], words, diagBase))
    && (forall e :: e in equips && e.polled ==> Mapped(blocks, e.code))
  }

  ghost predicate MappedSoFar(blocks: seq<PlcBlocks>, p: nat, code: string)
    requires p <= |blocks|
  {
    Mapped(blocks[..p], code)
  }

  /** The entries of one PLC, with the codes that earlier PLCs have taken. */
  method ValidatePlc(plcs: set<string>, equips: seq<Equip>, b: PlcBlocks, words: int, diagBase: int, taken: set<string>)
    returns (v: Verdict, more: set<string>)
    requires CodesDistinct(b.entries)
    requires forall c, e :: c in taken && FindEquip(equips, c) == Some(e) ==> e.owner != Some(b.plc)
    ensures v == Accepted <==> PlcFits(plcs, equips, b, words, diagBase)
    ensures forall c :: c in more ==> c in taken || HasEntry(b.entries, c)
    ensures v == Accepted ==> taken <= more && forall c :: HasEntry(b.entries, c) ==> c in more
  {
    more := taken;
    if b.plc !in plcs { return UnknownPlc, more; }
    var starts: seq<int> := [];
    for k := 0 to |b.entries|
      invariant starts == Starts(b.entries, diagBase)[..k] && taken <= more
      invariant forall l :: 0 <= l < k ==> EntryFits(equips, b.plc, b.entries[l]) && b.entries[l].code in more
      invariant forall c :: c in more ==> c in taken || exists l :: 0 <= l < k && b.entries[l].code == c
    {
      var e := b.entries[k];
      var equip := FindEquip(equips, e.code);
      if equip.None? {
        assert !EntryFits(equips, b.plc, b.entries[k]);
        return UnknownEquip, more;
      }
      if e.code in more {
        assert !EntryFits(equips, b.plc, b.entries[k]);
        return MappedTwice, more;
      }
      more := more + {e.code};
      if equip.value.owner != Some(b.plc) {
        assert !EntryFits(equips, b.plc, b.entries[k]);
        return WrongOwner, more;
      }
      starts := starts + [e.base];
    }
    starts := starts + [diagBase];
    assert starts == Starts(b.entries, diagBase);
    var sorted := Sorted(starts);
    NeighboursSuffice(starts, words);
    for k := 0 to |sorted| - 1
      invariant forall l :: 0 <= l < k ==> sorted[l] + words <= sorted[l + 1]
    {
      if sorted[k + 1] < sorted[k] + words { return Overlap, more; }
    }
    return Accepted, more;
  }

  lemma FoundIsIt(equips: seq<Equip>, e: Equip)
    requires e in equips && forall i, j :: 0 <= i < j < |equips| ==> equips[i].code != equips[j].code
    ensures FindEquip(equips, e.code) == Some(e)
  {
    var f := FindEquip(equips, e.code).value;
    var i :| 0 <= i < |equips| && equips[i] == e;
    var j :| 0 <= j < |equips| && equips[j] == f;
    assert i == j;
  }

  /** `_validate_memory_map` */
  method Validate(plcs: set<string>, equips: seq<Equip>, blocks: seq<PlcBlocks>, words: int, diagBase: int)
    returns (v: Verdict)
    requires KeysDistinct(equips, blocks)
    ensures v == Accepted <==> MapFits(plcs, equips, blocks, words, diagBase)
  {
    var taken: set<string> := {};
    for p := 0 to |blocks|
      invariant forall q :: 0 <= q < p ==> PlcFits(plcs, equips, blocks[q], words, diagBase)
      invariant forall c :: c in taken <==> MappedSoFar(blocks, p, c)
    {
      TakenElsewhere(plcs, equips, blocks, words, diagBase, p, taken);
      var more;
      v, more := ValidatePlc(plcs, equips, blocks[p], words, diagBase, taken);
      if v != Accepted { return; }
      MappedMore(blocks, p);
      taken := more;
    }
    assert blocks[..|blocks|] == blocks;
    for i := 0 to |equips|
      invariant forall j :: 0 <= j < i && equips[j].polled ==> Mapped(blocks, equips[j].code)
    {
      if equips[i].polled && equips[i].code !in taken {
        assert equips[i] in equips && !Mapped(blocks, equips[i].code);
        return NotMapped;
      }
    }
    return Accepted;
  }

  lemma MappedMore(blocks: seq<PlcBlocks>, p: nat)
    requires p < |blocks|
    ensures forall c :: MappedSoFar(blocks, p + 1, c) <==>
                        MappedSoFar(blocks, p, c) || HasEntry(blocks[p].entries, c)
  {
    forall c
      ensures MappedSoFar(blocks, p + 1, c) <==>
              MappedSoFar(blocks, p, c) || HasEntry(blocks[p].entries, c)
    {
      if MappedSoFar(blocks, p, c) {
        var q, k :| 0 <= q < p && 0 <= k < |blocks[..p][q].entries| && blocks[..p][q].entries[k].code == c;
        assert blocks[..p + 1][q] == blocks[q] == blocks[..p][q];
        assert blocks[..p + 1][q].entries[k].code == c;
      }
      if HasEntry(blocks[p].entries, c) {
        var k :| 0 <= k < |blocks[p].entries| && blocks[p].entries[k].code == c;
        assert blocks[..p + 1][p].entries[k].code == c;
      }
      if MappedSoFar(blocks, p + 1, c) {
        var q, k :| 0 <= q < p + 1 && 0 <= k < |blocks[..p + 1][q].entries| && blocks[..p + 1][q].entries[k].code == c;
        if q < p { assert blocks[..p][q].entries[k].code == c; } else { assert blocks[p].entries[k].code == c; }
      }
    }
  }

  /** A code taken by an earlier PLC belongs to that PLC, so it cannot fit this one. */
  lemma TakenElsewhere(plcs: set<string>, equips: seq<Equip>, blocks: seq<PlcBlocks>, words: int, diagBase: int, p: nat,
                       taken: set<string>)
    requires KeysDistinct(equips, blocks) && p < |blocks| && forall c :: c in taken <==> MappedSoFar(blocks, p, c)
    requires forall q :: 0 <= q < p ==> PlcFits(plcs, equips, blocks[q], words, diagBase)
    ensures forall c, e :: c in taken && FindEquip(equips, c) == Some(e) ==> e.owner != Some(blocks[p].plc)
  {
    forall c, e | c in taken && FindEquip(equips, c) == Some(e)
      ensures e.owner != Some(blocks[p].plc)
    {
      var q, k :| 0 <= q < p && 0 <= k < |blocks[..p][q].entries| && blocks[..p][q].entries[k].code == c;
      assert blocks[..p][q] == blocks[q];
      assert EntryFits(equips, blocks[q].plc, blocks[q].entries[k]);
    }
  }

  /** In an accepted map every polled device has exactly one block, on the PLC that polls it. */
  lemma OneBlockEach(plcs: set<string>, equips: seq<Equip>, blocks: seq<PlcBlocks>, words: int, diagBase: int, e: Equip)
    requires KeysDistinct(equips, blocks) && MapFits(plcs, equips, blocks, words, diagBase) && e in equips && e.polled
    ensures exists p, k :: 0 <= p < |blocks| && 0 <= k < |blocks[p].entries| && blocks[p].entries[k].code == e.code
                           && e.owner == Some(blocks[p].plc)
    ensures forall p, k, q, l :: 0 <= p < |blocks| && 0 <= k < |blocks[p].entries| && blocks[p].entries[k].code == e.code
                                 && 0 <= q < |blocks| && 0 <= l < |blocks[q].entries| && blocks[q].entries[l].code == e.code
                                 ==> p == q && k == l
  {
    FoundIsIt(equips, e);
    assert Mapped(blocks, e.code);
    forall p, k | 0 <= p < |blocks| && 0 <= k < |blocks[p].entries| && blocks[p].entries[k].code == e.code
      ensures e.owner == Some(blocks[p].plc)
    {
      assert PlcFits(plcs, equips, blocks[p], words, diagBase) && EntryFits(equips, blocks[p].plc, blocks[p].entries[k]);
    }
  }
}
