// How the Edge reads a PLC's memory: neighbouring blocks are merged into ranges that one Modbus request
// can carry.

module ReadRanges {
  import opened MemoryMap

  /** The words lo <= x < hi. */
  datatype Span = Span(lo: int, hi: int)

  const LIMIT := 125
  const DIAG_WORDS := 6

  predicate In(x: int, s: Span) {
    s.lo <= x < s.hi
  }

  predicate Within(s: Span, r: Span) {
    r.lo <= s.lo && s.hi <= r.hi
  }

  ghost predicate Covered(x: int, spans: seq<Span>) {
    exists k :: 0 <= k < |spans| && In(x, spans[k])
  }

  /** Non-empty spans of at most LIMIT words, in ascending order without overlap. */
  ghost predicate Separate(spans: seq<Span>) {
    && (forall k :: 0 <= k < |spans| ==> spans[k].lo < spans[k].hi <= spans[k].lo + LIMIT)
    && (forall j, k :: 0 <= j < k < |spans| ==> spans[j].hi <= spans[k].lo)
  }

  // ---------- the spans of a PLC ----------

  /** One span for each block, and a shorter one for the diagnostics. */
  function SpanAt(start: int, words: int, diagBase: int): Span {
    Span(start, start + if start == diagBase then DIAG_WORDS else words)
  }

  function SpansOf(starts: seq<int>, words: int, diagBase: int): (r: seq<Span>)
    ensures |r| == |starts| && forall k :: 0 <= k < |r| ==> r[k] == SpanAt(starts[k], words, diagBase)
  {
    seq(|starts|, k requires 0 <= k < |starts| => SpanAt(starts[k], words, diagBase))
  }

  /** The blocks and diagnostics of an accepted map, sorted, do not overlap. */
  lemma AcceptedMapIsSeparate(entries: seq<Entry>, words: int, diagBase: int)
    requires 9 <= words <= LIMIT && AllDisjoint(Starts(entries, diagBase), words)
    ensures Separate(SpansOf(Sorted(Starts(entries, diagBase)), words, diagBase))
    ensures forall k :: 0 <= k < |entries| ==>
                          SpanAt(entries[k].base, words, diagBase) in SpansOf(Sorted(Starts(entries, diagBase)), words, diagBase)
                          && entries[k].base != diagBase
    ensures Span(diagBase, diagBase + DIAG_WORDS) in SpansOf(Sorted(Starts(entries, diagBase)), words, diagBase)
  {
    var starts := Starts(entries, diagBase);
    var sorted := Sorted(starts);
    NeighboursSuffice(starts, words);
    SortedAscends(starts);
    var spans := SpansOf(sorted, words, diagBase);
    forall j, k | 0 <= j < k < |spans|
      ensures spans[j].hi <= spans[k].lo
    {
      assert sorted[j] + words <= sorted[j + 1] <= sorted[k];
    }
    forall k | 0 <= k < |starts|
      ensures SpanAt(starts[k], words, diagBase) in spans
    {
      assert starts[k] in sorted;
      var l :| 0 <= l < |sorted| && sorted[l] == starts[k];
      assert spans[l] == SpanAt(starts[k], words, diagBase);
    }
    forall k | 0 <= k < |entries|
      ensures SpanAt(entries[k].base, words, diagBase) in spans && entries[k].base != diagBase
    {
      assert Disjoint(starts[k], starts[|entries|], words);
    }
  }

  // ---------- merging ----------

  ghost predicate WithinSome(s: Span, ranges: seq<Span>) {
    exists j :: 0 <= j < |ranges| && Within(s, ranges[j])
  }

  ghost predicate Holds(spans: seq<Span>, ranges: seq<Span>) {
    forall k :: 0 <= k < |spans| ==> WithinSome(spans[k], ranges)
  }

  ghost predicate SameWords(spans: seq<Span>, ranges: seq<Span>) {
    forall x :: Covered(x, spans) <==> Covered(x, ranges)
  }

  ghost predicate BeginsWithSpan(spans: seq<Span>, r: Span) {
    exists k :: 0 <= k < |spans| && spans[k].lo == r.lo && spans[k].hi <= r.hi
  }

  /** Why the span could not join the range: a gap, or too long. */
  predicate NoFit(r: Span, s: Span) {
    r.hi < s.lo || s.hi - r.lo > LIMIT
  }

  /** Every range begins with a span, and the first span of the next range did not fit it. */
  ghost predicate Greedy(spans: seq<Span>, ranges: seq<Span>) {
    && (forall j :: 0 <= j < |ranges| ==> BeginsWithSpan(spans, ranges[j]))
    && (forall j, k :: 0 <= j < |ranges| - 1 && 0 <= k < |spans| && spans[k].lo == ranges[j + 1].lo ==>
          NoFit(ranges[j], spans[k]))
  }

  /** Sorted by where they begin. */
  ghost predicate Ascending(spans: seq<Span>) {
    forall j, k :: 0 <= j < k < |spans| ==> spans[j].lo <= spans[k].lo
  }

  /** Only a span that is too long by itself makes a request that is. */
  ghost predicate NoneTooLong(spans: seq<Span>, ranges: seq<Span>) {
    forall j :: 0 <= j < |ranges| ==> ranges[j].hi - ranges[j].lo <= LIMIT || ranges[j] in spans
  }

  ghost predicate LastIs(spans: seq<Span>, ranges: seq<Span>) {
    (spans == [] <==> ranges == []) && (spans != [] ==> ranges[|ranges| - 1].hi == spans[|spans| - 1].hi)
  }

  /** What holds of the merged ranges when the spans do not overlap. */
  ghost predicate Best(spans: seq<Span>, ranges: seq<Span>) {
    Separate(spans) ==> Separate(ranges) && LastIs(spans, ranges) && Greedy(spans, ranges)
  }

  /** Every range begins no later than this. */
  ghost predicate BeginBy(ranges: seq<Span>, lo: int) {
    forall j :: 0 <= j < |ranges| ==> ranges[j].lo <= lo
  }

  ghost predicate MergedSoFar(spans: seq<Span>, merged: seq<Span>) {
    SameWords(spans, merged) && Holds(spans, merged) && NoneTooLong(spans, merged) && Best(spans, merged)
  }

  /** `_ranges`, on the sorted spans. */
  method Merge(spans: seq<Span>) returns (merged: seq<Span>)
    requires Ascending(spans)
    ensures SameWords(spans, merged) && Holds(spans, merged) && NoneTooLong(spans, merged)
    ensures Separate(spans) ==> Separate(merged) && Greedy(spans, merged)
  {
    hide MergedSoFar, BeginBy, Ascending, Separate, Greedy, SameWords, Holds, NoneTooLong;
    merged := [];
    NothingMerged();
    for k := 0 to |spans|
      invariant MergedSoFar(spans[..k], merged) && (k > 0 ==> BeginBy(merged, spans[k - 1].lo)) && (k == 0 ==> merged == [])
    {
      var s := spans[k];
      var n := |merged| - 1;
      assert spans[..k + 1] == spans[..k] + [s];
      BeginBefore(spans, merged, k);
      if merged != [] && s.lo <= merged[n].hi && s.hi - merged[n].lo <= LIMIT {
        var hi := if merged[n].hi >= s.hi then merged[n].hi else s.hi;
        Extend(spans[..k], merged, s, merged[n := Span(merged[n].lo, hi)]);
        merged := merged[n := Span(merged[n].lo, hi)];
      } else {
        Append(spans[..k], merged, s);
        merged := merged + [s];
      }
    }
    assert spans[..|spans|] == spans;
    AllMerged(spans, merged);
  }

  lemma AllMerged(spans: seq<Span>, merged: seq<Span>)
    requires MergedSoFar(spans, merged)
    ensures SameWords(spans, merged) && Holds(spans, merged) && NoneTooLong(spans, merged)
    ensures Separate(spans) ==> Separate(merged) && Greedy(spans, merged)
  {
    hide SameWords, Holds, NoneTooLong, Separate, Greedy;
  }

  lemma Append(spans: seq<Span>, merged: seq<Span>, s: Span)
    requires MergedSoFar(spans, merged) && BeginBy(merged, s.lo) && (merged != [] ==> NoFit(merged[|merged| - 1], s))
    ensures MergedSoFar(spans + [s], merged + [s]) && BeginBy(merged + [s], s.lo)
  {
    hide SameWords, Holds, NoneTooLong, Best, BeginBy;
    AppendKeeps(spans, merged, s);
    AppendIsBest(spans, merged, s);
  }

  lemma Extend(spans: seq<Span>, merged: seq<Span>, s: Span, wide: seq<Span>)
    requires MergedSoFar(spans, merged) && merged != [] && BeginBy(merged, s.lo)
    requires s.lo <= merged[|merged| - 1].hi && s.hi - merged[|merged| - 1].lo <= LIMIT
    requires var last := merged[|merged| - 1];
             wide == merged[|merged| - 1 := Span(last.lo, if last.hi >= s.hi then last.hi else s.hi)]
    ensures MergedSoFar(spans + [s], wide) && BeginBy(wide, s.lo)
  {
    hide SameWords, Holds, NoneTooLong, Best, BeginBy;
    ExtendKeeps(spans, merged, s, wide);
    ExtendIsBest(spans, merged, s, wide);
  }

  lemma NothingMerged()
    ensures MergedSoFar([], [])
  {
  }

  lemma BeginBefore(spans: seq<Span>, ranges: seq<Span>, k: nat)
    requires Ascending(spans) && k < |spans| && (k > 0 ==> BeginBy(ranges, spans[k - 1].lo)) && (k == 0 ==> ranges == [])
    ensures BeginBy(ranges, spans[k].lo)
  {
  }

  lemma SpansBefore(spans: seq<Span>, s: Span)
    requires Separate(spans + [s])
    ensures Separate(spans) && s.lo < s.hi <= s.lo + LIMIT
    ensures forall j :: 0 <= j < |spans| ==> spans[j].hi <= s.lo
  {
    var more := spans + [s];
    assert more[|spans|] == s && forall j :: 0 <= j < |spans| ==> more[j] == spans[j];
  }

  lemma CoveredSnoc(x: int, spans: seq<Span>, s: Span)
    ensures Covered(x, spans + [s]) <==> Covered(x, spans) || In(x, s)
  {
    var more := spans + [s];
    if Covered(x, spans) {
      var k :| 0 <= k < |spans| && In(x, spans[k]);
      assert more[k] == spans[k];
    }
    if In(x, s) { assert more[|spans|] == s; }
    if Covered(x, more) {
      var k :| 0 <= k < |more| && In(x, more[k]);
      if k < |spans| { assert In(x, spans[k]); }
    }
  }

  // ---------- a range is added ----------

  lemma AppendWords(spans: seq<Span>, merged: seq<Span>, s: Span)
    requires SameWords(spans, merged)
    ensures SameWords(spans + [s], merged + [s])
  {
    hide Covered;
    forall x
      ensures Covered(x, spans + [s]) <==> Covered(x, merged + [s])
    {
      CoveredSnoc(x, spans, s);
      CoveredSnoc(x, merged, s);
    }
  }

  lemma WithinMore(x: Span, merged: seq<Span>, s: Span)
    requires WithinSome(x, merged) || Within(x, s)
    ensures WithinSome(x, merged + [s])
  {
    if WithinSome(x, merged) {
      var j :| 0 <= j < |merged| && Within(x, merged[j]);
      assert Within(x, (merged + [s])[j]);
    } else {
      assert Within(x, (merged + [s])[|merged|]);
    }
  }

  lemma AppendHolds(spans: seq<Span>, merged: seq<Span>, s: Span)
    requires Holds(spans, merged)
    ensures Holds(spans + [s], merged + [s])
  {
    hide WithinSome;
    var more := spans + [s];
    forall k | 0 <= k < |more|
      ensures WithinSome(more[k], merged + [s])
    {
      WithinMore(more[k], merged, s);
    }
  }

  lemma BeginsMore(spans: seq<Span>, s: Span, r: Span)
    requires BeginsWithSpan(spans, r) || s == r
    ensures BeginsWithSpan(spans + [s], r)
  {
    var more := spans + [s];
    if s == r { assert more[|spans|].lo == r.lo; }
    if BeginsWithSpan(spans, r) {
      var k :| 0 <= k < |spans| && spans[k].lo == r.lo && spans[k].hi <= r.hi;
      assert more[k].lo == r.lo;
    }
  }

  lemma AppendGreedy(spans: seq<Span>, merged: seq<Span>, s: Span)
    requires Greedy(spans, merged) && (forall j :: 0 <= j < |merged| ==> merged[j].lo < s.lo)
    requires forall j :: 0 <= j < |spans| ==> spans[j].lo < s.lo
    requires merged != [] ==> NoFit(merged[|merged| - 1], s)
    ensures Greedy(spans + [s], merged + [s])
  {
    var more, ranges := spans + [s], merged + [s];
    hide BeginsWithSpan, NoFit;
    forall j | 0 <= j < |ranges|
      ensures BeginsWithSpan(more, ranges[j])
    {
      BeginsMore(spans, s, ranges[j]);
    }
  }

  lemma AppendSeparate(spans: seq<Span>, merged: seq<Span>, s: Span)
    requires Separate(spans) && Separate(merged) && LastIs(spans, merged) && s.lo < s.hi <= s.lo + LIMIT
    requires forall j :: 0 <= j < |spans| ==> spans[j].hi <= s.lo
    ensures Separate(merged + [s]) && LastIs(spans + [s], merged + [s])
    ensures (forall j :: 0 <= j < |merged| ==> merged[j].lo < s.lo) && (forall j :: 0 <= j < |spans| ==> spans[j].lo < s.lo)
  {
    forall j | 0 <= j < |merged|
      ensures merged[j].lo < merged[j].hi <= s.lo
    {
      assert j < |merged| - 1 ==> merged[j].hi <= merged[|merged| - 1].lo;
    }
  }

  lemma AppendKeeps(spans: seq<Span>, merged: seq<Span>, s: Span)
    requires SameWords(spans, merged) && Holds(spans, merged) && NoneTooLong(spans, merged) && BeginBy(merged, s.lo)
    ensures SameWords(spans + [s], merged + [s]) && Holds(spans + [s], merged + [s]) && NoneTooLong(spans + [s], merged + [s])
    ensures BeginBy(merged + [s], s.lo)
  {
    assert NoneTooLong(spans + [s], merged + [s]) by { hide SameWords, Holds; }
    hide SameWords, Holds, NoneTooLong;
    AppendWords(spans, merged, s);
    AppendHolds(spans, merged, s);
  }

  lemma AppendIsBest(spans: seq<Span>, merged: seq<Span>, s: Span)
    requires Best(spans, merged) && (merged != [] ==> NoFit(merged[|merged| - 1], s))
    ensures Best(spans + [s], merged + [s])
  {
    hide Greedy, LastIs, Separate;
    if Separate(spans + [s]) {
      SpansBefore(spans, s);
      AppendSeparate(spans, merged, s);
      AppendGreedy(spans, merged, s);
    }
  }

  // ---------- a range is extended ----------

  lemma WiderCovers(x: int, last: Span, s: Span, wide: Span)
    requires last.lo <= s.lo <= last.hi && wide == Span(last.lo, if last.hi >= s.hi then last.hi else s.hi)
    ensures In(x, wide) <==> In(x, last) || In(x, s)
  {
  }

  lemma ExtendWords(spans: seq<Span>, merged: seq<Span>, s: Span, wide: Span)
    requires SameWords(spans, merged) && merged != [] && merged[|merged| - 1].lo <= s.lo <= merged[|merged| - 1].hi
    requires wide == Span(merged[|merged| - 1].lo, if merged[|merged| - 1].hi >= s.hi then merged[|merged| - 1].hi else s.hi)
    ensures SameWords(spans + [s], merged[|merged| - 1 := wide])
  {
    var n := |merged| - 1;
    var before, last := merged[..n], merged[n];
    assert merged == before + [last] && merged[n := wide] == before + [wide];
    hide Covered, In;
    forall x
      ensures Covered(x, spans + [s]) <==> Covered(x, merged[n := wide])
    {
      CoveredSnoc(x, spans, s);
      CoveredSnoc(x, before, last);
      CoveredSnoc(x, before, wide);
      WiderCovers(x, last, s, wide);
    }
  }

  lemma WithinWider(x: Span, merged: seq<Span>, hi: int)
    requires merged != [] && merged[|merged| - 1].hi <= hi && WithinSome(x, merged)
    ensures WithinSome(x, merged[|merged| - 1 := Span(merged[|merged| - 1].lo, hi)])
  {
    var n := |merged| - 1;
    var j :| 0 <= j < |merged| && Within(x, merged[j]);
    assert Within(x, merged[n := Span(merged[n].lo, hi)][j]);
  }

  lemma ExtendHolds(spans: seq<Span>, merged: seq<Span>, s: Span, hi: int)
    requires Holds(spans, merged) && merged != [] && merged[|merged| - 1].lo <= s.lo
    requires merged[|merged| - 1].hi <= hi && s.hi <= hi
    ensures Holds(spans + [s], merged[|merged| - 1 := Span(merged[|merged| - 1].lo, hi)])
  {
    var more, wide := spans + [s], merged[|merged| - 1 := Span(merged[|merged| - 1].lo, hi)];
    assert WithinSome(s, wide) by { assert Within(s, wide[|merged| - 1]); }
    hide WithinSome;
    forall k | 0 <= k < |more|
      ensures WithinSome(more[k], wide)
    {
      if k < |spans| { WithinWider(more[k], merged, hi); }
    }
  }

  lemma BeginsWider(spans: seq<Span>, s: Span, r: Span, wide: Span)
    requires BeginsWithSpan(spans, r) && wide.lo == r.lo && r.hi <= wide.hi
    ensures BeginsWithSpan(spans + [s], wide)
  {
    var k :| 0 <= k < |spans| && spans[k].lo == r.lo && spans[k].hi <= r.hi;
    assert (spans + [s])[k].lo == r.lo;
  }

  lemma ExtendGreedy(spans: seq<Span>, merged: seq<Span>, s: Span, wide: seq<Span>)
    requires Greedy(spans, merged) && Separate(merged) && merged != [] && merged[|merged| - 1].hi == s.lo < s.hi
    requires wide == merged[|merged| - 1 := Span(merged[|merged| - 1].lo, s.hi)]
    ensures Greedy(spans + [s], wide)
  {
    var more := spans + [s];
    hide BeginsWithSpan, NoFit;
    forall j | 0 <= j < |wide|
      ensures BeginsWithSpan(more, wide[j]) && wide[j].lo == merged[j].lo < s.lo
    {
      BeginsWider(spans, s, merged[j], wide[j]);
      assert j < |merged| - 1 ==> merged[j].hi <= merged[|merged| - 1].lo;
    }
    hide Separate;
    forall j, k | 0 <= j < |wide| - 1 && 0 <= k < |more| && more[k].lo == wide[j + 1].lo
      ensures NoFit(wide[j], more[k])
    {
      assert wide[j] == merged[j];
      assert k < |spans|;
    }
  }

  /** Since the spans do not overlap, one that joins the last range begins where that range ends. */
  lemma LastTouches(spans: seq<Span>, merged: seq<Span>, s: Span)
    requires LastIs(spans, merged) && merged != [] && s.lo <= merged[|merged| - 1].hi
    requires forall j :: 0 <= j < |spans| ==> spans[j].hi <= s.lo
    ensures merged[|merged| - 1].hi == s.lo
  {
  }

  lemma ExtendKeeps(spans: seq<Span>, merged: seq<Span>, s: Span, wide: seq<Span>)
    requires merged != [] && BeginBy(merged, s.lo) && s.lo <= merged[|merged| - 1].hi && s.hi - merged[|merged| - 1].lo <= LIMIT
    requires var last := merged[|merged| - 1];
             wide == merged[|merged| - 1 := Span(last.lo, if last.hi >= s.hi then last.hi else s.hi)]
    requires SameWords(spans, merged) && Holds(spans, merged) && NoneTooLong(spans, merged)
    ensures SameWords(spans + [s], wide) && Holds(spans + [s], wide) && NoneTooLong(spans + [s], wide) && BeginBy(wide, s.lo)
  {
    assert NoneTooLong(spans + [s], wide) && BeginBy(wide, s.lo) by { hide SameWords, Holds; }
    hide SameWords, Holds, NoneTooLong;
    ExtendWords(spans, merged, s, wide[|merged| - 1]);
    ExtendHolds(spans, merged, s, wide[|merged| - 1].hi);
  }

  lemma ExtendIsBest(spans: seq<Span>, merged: seq<Span>, s: Span, wide: seq<Span>)
    requires Best(spans, merged) && merged != [] && s.lo <= merged[|merged| - 1].hi && s.hi - merged[|merged| - 1].lo <= LIMIT
    requires var last := merged[|merged| - 1];
             wide == merged[|merged| - 1 := Span(last.lo, if last.hi >= s.hi then last.hi else s.hi)]
    ensures Best(spans + [s], wide)
  {
    hide Greedy;
    if Separate(spans + [s]) {
      SpansBefore(spans, s);
      LastTouches(spans, merged, s);
      ExtendGreedy(spans, merged, s, wide);
    }
  }

  // ---------- no grouping does better ----------

  /** Another way to read the same spans: each whole in one request, no request too long or with a gap. */
  ghost predicate Grouping(spans: seq<Span>, others: seq<Span>) {
    && Holds(spans, others)
    && (forall j :: 0 <= j < |others| ==> others[j].hi <= others[j].lo + LIMIT)
    && (forall j, x :: 0 <= j < |others| && In(x, others[j]) ==> Covered(x, spans))
  }

  lemma GapNotCovered(ranges: seq<Span>, j: nat)
    requires Separate(ranges) && j + 1 < |ranges| && ranges[j].hi < ranges[j + 1].lo
    ensures !Covered(ranges[j].hi, ranges)
  {
    forall l | 0 <= l < |ranges|
      ensures !In(ranges[j].hi, ranges[l])
    {
      assert l < j ==> ranges[l].hi <= ranges[j].lo;
      assert l > j + 1 ==> ranges[j + 1].hi <= ranges[l].lo;
    }
  }

  /** A gap-free request cannot hold the first spans of two neighbouring ranges. */
  lemma NotTwoNeighbours(spans: seq<Span>, ranges: seq<Span>, other: Span, j: nat, k: nat)
    requires Separate(ranges) && SameWords(spans, ranges) && Greedy(spans, ranges) && j + 1 < |ranges| && k < |spans|
    requires spans[k].lo == ranges[j + 1].lo && spans[k].lo < spans[k].hi
    requires other.hi <= other.lo + LIMIT && forall x :: In(x, other) ==> Covered(x, spans)
    ensures !(other.lo <= ranges[j].lo && spans[k].hi <= other.hi)
  {
    assert NoFit(ranges[j], spans[k]);
    if ranges[j].hi < spans[k].lo {
      GapNotCovered(ranges, j);
      assert !In(ranges[j].hi, other);
      assert ranges[j].lo < ranges[j].hi;
    }
  }

  /** Where the first span of range j is read in the other grouping. */
  lemma ReadWhere(spans: seq<Span>, ranges: seq<Span>, others: seq<Span>, j: nat) returns (k: nat, o: nat)
    requires Greedy(spans, ranges) && Grouping(spans, others) && j < |ranges|
    ensures k < |spans| && spans[k].lo == ranges[j].lo && o < |others| && Within(spans[k], others[o])
  {
    assert BeginsWithSpan(spans, ranges[j]);
    k :| 0 <= k < |spans| && spans[k].lo == ranges[j].lo && spans[k].hi <= ranges[j].hi;
    assert WithinSome(spans[k], others);
    o :| 0 <= o < |others| && Within(spans[k], others[o]);
  }

  /** The first spans of two ranges are never read together. */
  lemma ReadApart(spans: seq<Span>, ranges: seq<Span>, other: Span, i: nat, j: nat, l: nat)
    requires Separate(spans) && Separate(ranges) && SameWords(spans, ranges) && Greedy(spans, ranges)
    requires i < j < |ranges| && l < |spans| && spans[l].lo == ranges[j].lo
    requires other.hi <= other.lo + LIMIT && forall x :: In(x, other) ==> Covered(x, spans)
    ensures !(other.lo <= ranges[i].lo && spans[l].hi <= other.hi)
  {
    assert BeginsWithSpan(spans, ranges[i + 1]);
    var k :| 0 <= k < |spans| && spans[k].lo == ranges[i + 1].lo && spans[k].hi <= ranges[i + 1].hi;
    hide SameWords, Greedy;
    NotTwoNeighbours(spans, ranges, other, i, k);
    assert i + 1 < j ==> ranges[i + 1].hi <= ranges[j].lo;
    assert i + 1 == j ==> k == l;
  }

  /** As many different numbers below n as there are entries. */
  ghost predicate Different(w: seq<nat>, n: nat) {
    && (forall i :: 0 <= i < |w| ==> w[i] < n)
    && (forall i, j :: 0 <= i < j < |w| ==> w[i] != w[j])
  }

  lemma {:induction false} DifferentFit(w: seq<nat>, n: nat)
    requires Different(w, n)
    ensures |w| <= n
  {
    if w != [] {
      var seen := set i | 0 <= i < |w| :: w[i];
      DistinctCount(w, seen);
      SubsetSize(seen, Below(n));
    }
  }

  lemma {:induction false} DistinctCount(w: seq<nat>, seen: set<nat>)
    requires (forall i, j :: 0 <= i < j < |w| ==> w[i] != w[j]) && (forall x :: x in seen <==> x in w)
    ensures |seen| == |w|
  {
    if w == [] {
      assert seen == {};
    } else {
      var n := |w| - 1;
      assert w == w[..n] + [w[n]];
      DistinctCount(w[..n], seen - {w[n]});
    }
  }

  function Below(n: nat): (all: set<nat>)
    ensures |all| == n && forall x: nat :: x in all <==> x < n
  {
    if n == 0 then {} else Below(n - 1) + {n - 1}
  }

  lemma SubsetSize(a: set<nat>, b: set<nat>)
    requires a <= b
    ensures |a| <= |b|
  {
    assert b == a + (b - a);
  }

  /** No grouping of the spans into gap-free requests within the limit needs fewer requests. */
  lemma MergedIsMinimal(spans: seq<Span>, ranges: seq<Span>, others: seq<Span>)
    requires Separate(spans) && Separate(ranges) && SameWords(spans, ranges) && Greedy(spans, ranges)
    requires Grouping(spans, others)
    ensures |ranges| <= |others|
  {
    hide SameWords, Greedy, Separate;
    var where: seq<nat> := [];
    for j := 0 to |ranges|
      invariant |where| == j && forall i :: 0 <= i < j ==> ReadAt(spans, ranges, others, i, where[i])
    {
      var k, o := ReadWhere(spans, ranges, others, j);
      assert spans[k].lo == ranges[j].lo && Within(spans[k], others[o]);
      where := where + [o];
    }
    forall i, j | 0 <= i < j < |where|
      ensures where[i] != where[j]
    {
      assert ReadAt(spans, ranges, others, i, where[i]) && ReadAt(spans, ranges, others, j, where[j]);
      var k :| 0 <= k < |spans| && spans[k].lo == ranges[i].lo && Within(spans[k], others[where[i]]);
      var l :| 0 <= l < |spans| && spans[l].lo == ranges[j].lo && Within(spans[l], others[where[j]]);
      ReadApart(spans, ranges, others[where[i]], i, j, l);
    }
    DifferentFit(where, |others|);
  }

  ghost predicate ReadAt(spans: seq<Span>, ranges: seq<Span>, others: seq<Span>, i: nat, o: nat) {
    i < |ranges| && o < |others| && exists k :: 0 <= k < |spans| && spans[k].lo == ranges[i].lo && Within(spans[k], others[o])
  }
}
