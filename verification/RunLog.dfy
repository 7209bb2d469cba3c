// Run and stop intervals per equipment: a cached state over interval rows, which must survive restarts
// (the cache is lost) and purges (old closed rows are deleted).

module RunLog {
  import opened Outcomes
  import opened Sequences

  /** A row of the run log; `stop` is how long a closed stop lasted. */
  datatype Row = Row(id: nat, equip: string, running: bool, start: int, end: Option<int>, stop: Option<int>)

  /** An interval, without the row number. */
  datatype Interval = Interval(running: bool, start: int, end: Option<int>, stop: Option<int>)

  datatype Log = Log(rows: seq<Row>, cache: map<string, bool>)

  function IntervalOf(r: Row): Interval {
    Interval(r.running, r.start, r.end, r.stop)
  }

  function Intervals(rows: seq<Row>, equip: string): seq<Interval> {
    if rows == [] then []
    else
      var r := rows[|rows| - 1];
      Intervals(rows[..|rows| - 1], equip) + (if r.equip == equip then [IntervalOf(r)] else [])
  }

  function NextId(rows: seq<Row>): nat {
    if rows == [] then 1 else rows[|rows| - 1].id + 1
  }

  /** SELECT ... WHERE EQUIP_ID = equip AND END_DT IS NULL ORDER BY id DESC LIMIT 1 */
  function LastOpen(rows: seq<Row>, equip: string): (r: Option<nat>)
    ensures r.Some? ==> r.value < |rows| && rows[r.value].equip == equip && rows[r.value].end.None?
    ensures r.Some? ==> forall i :: r.value < i < |rows| && rows[i].equip == equip ==> rows[i].end.Some?
    ensures r.None? ==> forall i :: 0 <= i < |rows| && rows[i].equip == equip ==> rows[i].end.Some?
  {
    if rows == [] then None
    else if rows[|rows| - 1].equip == equip && rows[|rows| - 1].end.None? then Some(|rows| - 1)
    else LastOpen(rows[..|rows| - 1], equip)
  }

  function Previous(l: Log, equip: string): Option<bool> {
    if equip in l.cache then Some(l.cache[equip])
    else
      match LastOpen(l.rows, equip)
      case None => None
      case Some(c) => Some(l.rows[c].running)
  }

  function ClosedRow(r: Row, ts: int, wasRunning: bool): Row {
    r.(end := Some(ts), stop := if wasRunning then None else Some(ts - r.start))
  }

  function Logged(l: Log, equip: string, running: bool, ts: int): Log {
    var prev, last := Previous(l, equip), LastOpen(l.rows, equip);
    if prev == Some(running) then l.(cache := l.cache[equip := running])
    else
      var closed := if prev.Some? && last.Some? then l.rows[last.value := ClosedRow(l.rows[last.value], ts, prev.value)]
                    else l.rows;
      Log(closed + [Row(NextId(closed), equip, running, ts, None, None)], l.cache[equip := running])
  }

  predicate Expired(end: Option<int>, cutoff: int) {
    end.Some? && end.value < cutoff
  }

  function Purged(l: Log, cutoff: int): Log {
    l.(rows := Filter(l.rows, (r: Row) => !Expired(r.end, cutoff)))
  }

  class RunStore {
    var rows: seq<Row>
    var cache: map<string, bool>

    function State(): Log
      reads this
    {
      Log(rows, cache)
    }

    /** A start of the MES finds the rows but has no cache. */
    constructor (stored: seq<Row>)
      ensures State() == Log(stored, map[])
    {
      rows, cache := stored, map[];
    }

    /** `_run_log` */
    method Record(equip: string, running: bool, ts: int)
      modifies this
      ensures State() == Logged(old(State()), equip, running, ts)
    {
      var prev: Option<bool> := if equip in cache then Some(cache[equip]) else None;
      if prev.None? {
        var row := LastOpen(rows, equip);
        if row.Some? { prev := Some(rows[row.value].running); }
      }
      if prev == Some(running) {
        cache := cache[equip := running];
        return;
      }
      if prev.Some? {
        var row := LastOpen(rows, equip);
        if row.Some? {
          var r := rows[row.value];
          rows := rows[row.value := r.(end := Some(ts), stop := if prev.value then None else Some(ts - r.start))];
        }
      }
      rows := rows + [Row(NextId(rows), equip, running, ts, None, None)];
      cache := cache[equip := running];
    }

    /** The run log step of the daily purge. */
    method PurgeRows(cutoff: int)
      modifies this
      ensures State() == Purged(old(State()), cutoff)
    {
      rows := Filter(rows, (r: Row) => !Expired(r.end, cutoff));
    }
  }

  // ---------- the reference: one interval between two changes ----------

  datatype Reading = Reading(ts: int, running: bool)

  ghost predicate Ordered(s: seq<Reading>) {
    forall i, j :: 0 <= i < j < |s| ==> s[i].ts <= s[j].ts
  }

  predicate ChangeAt(s: seq<Reading>, i: nat)
    requires i < |s|
  {
    i == 0 || s[i].running != s[i - 1].running
  }

  /** The positions at which the state changes, the first included. */
  function Changes(s: seq<Reading>): (c: seq<nat>)
    ensures forall k :: 0 <= k < |c| ==> c[k] < |s| && ChangeAt(s, c[k])
    ensures forall i :: 0 <= i < |s| && ChangeAt(s, i) ==> i in c
    ensures forall j, k :: 0 <= j < k < |c| ==> c[j] < c[k]
    ensures s != [] ==> c != []
  {
    if s == [] then []
    else
      var n := |s| - 1;
      var c := Changes(s[..n]);
      assert forall i :: 0 <= i < n ==> (ChangeAt(s[..n], i) <==> ChangeAt(s, i));
      assert n > 0 ==> c != [];
      if ChangeAt(s, n) then c + [n] else c
  }

  function IntervalBetween(s: seq<Reading>, c: seq<nat>, k: nat): Interval
    requires k < |c| && forall j :: 0 <= j < |c| ==> c[j] < |s|
  {
    var first := s[c[k]];
    if k + 1 == |c| then Interval(first.running, first.ts, None, None)
    else
      var end := s[c[k + 1]].ts;
      Interval(first.running, first.ts, Some(end), if first.running then None else Some(end - first.ts))
  }

  /** From each change to the next; the last interval is open. */
  function Expected(s: seq<Reading>): (r: seq<Interval>)
    ensures |r| == |Changes(s)|
    ensures forall k :: 0 <= k < |r| ==> r[k] == IntervalBetween(s, Changes(s), k)
  {
    seq(|Changes(s)|, k requires 0 <= k < |Changes(s)| => IntervalBetween(s, Changes(s), k))
  }

  function Closing(i: Interval, ts: int): Interval {
    i.(end := Some(ts), stop := if i.running then None else Some(ts - i.start))
  }

  function Extended(r: seq<Interval>, running: bool, ts: int): seq<Interval> {
    if r == [] then [Interval(running, ts, None, None)]
    else if r[|r| - 1].running == running then r
    else r[..|r| - 1] + [Closing(r[|r| - 1], ts)] + [Interval(running, ts, None, None)]
  }

  /** No change between the last change and the end. */
  lemma {:induction false} LastState(s: seq<Reading>)
    requires s != []
    ensures var c := Changes(s); s[c[|c| - 1]].running == s[|s| - 1].running
  {
    var n := |s| - 1;
    if n > 0 && !ChangeAt(s, n) {
      LastState(s[..n]);
      assert Changes(s) == Changes(s[..n]);
    }
  }

  lemma ChangesSnoc(s: seq<Reading>, x: Reading)
    ensures Changes(s + [x]) == if ChangeAt(s + [x], |s|) then Changes(s) + [|s|] else Changes(s)
  {
    assert (s + [x])[..|s|] == s;
  }

  lemma LastInterval(s: seq<Reading>)
    requires s != []
    ensures var r := Expected(s); r != [] && r[|r| - 1].running == s[|s| - 1].running && r[|r| - 1].end.None?
  {
    LastState(s);
    hide Changes;
  }

  lemma BetweenSame(s: seq<Reading>, x: Reading, c: seq<nat>, k: nat)
    requires k < |c| && forall j :: 0 <= j < |c| ==> c[j] < |s|
    ensures IntervalBetween(s + [x], c, k) == IntervalBetween(s, c, k)
  {
  }

  lemma ExpectedSame(s: seq<Reading>, x: Reading)
    requires s != [] && x.running == s[|s| - 1].running
    ensures Expected(s + [x]) == Expected(s)
  {
    ChangesSnoc(s, x);
    hide Changes, IntervalBetween;
    forall k: nat | k < |Changes(s)|
      ensures Expected(s + [x])[k] == Expected(s)[k]
    {
      BetweenSame(s, x, Changes(s), k);
    }
    hide Expected;
  }

  lemma BetweenChanges(s: seq<Reading>, x: Reading, c: seq<nat>, k: nat)
    requires k < |c| && forall j :: 0 <= j < |c| ==> c[j] < |s|
    ensures IntervalBetween(s + [x], c + [|s|], k) ==
            if k + 1 < |c| then IntervalBetween(s, c, k) else Closing(IntervalBetween(s, c, k), x.ts)
    ensures IntervalBetween(s + [x], c + [|s|], |c|) == Interval(x.running, x.ts, None, None)
  {
    var d := c + [|s|];
    assert k + 1 < |c| ==> d[k + 1] == c[k + 1];
  }

  lemma ExpectedAt(s: seq<Reading>, x: Reading, k: nat)
    requires s != [] && x.running != s[|s| - 1].running
    ensures |Expected(s + [x])| == |Expected(s)| + 1
    ensures k < |Expected(s)| ==>
              Expected(s + [x])[k] == if k + 1 < |Expected(s)| then Expected(s)[k] else Closing(Expected(s)[k], x.ts)
    ensures k == |Expected(s)| ==> Expected(s + [x])[k] == Interval(x.running, x.ts, None, None)
  {
    ChangesSnoc(s, x);
    LastInterval(s);
    hide Changes, IntervalBetween, Closing;
    if k <= |Changes(s)| { BetweenChanges(s, x, Changes(s), if k < |Changes(s)| then k else 0); }
  }

  lemma ExpectedChange(s: seq<Reading>, x: Reading)
    requires s != [] && x.running != s[|s| - 1].running
    ensures var r := Expected(s);
            r != [] && Expected(s + [x]) == r[..|r| - 1] + [Closing(r[|r| - 1], x.ts)] + [Interval(x.running, x.ts, None, None)]
  {
    LastInterval(s);
    hide Changes, IntervalBetween, Closing, Expected;
    forall k: nat
      ensures |Expected(s + [x])| == |Expected(s)| + 1
      ensures k < |Expected(s)| ==>
                Expected(s + [x])[k] == if k + 1 < |Expected(s)| then Expected(s)[k] else Closing(Expected(s)[k], x.ts)
      ensures k == |Expected(s)| ==> Expected(s + [x])[k] == Interval(x.running, x.ts, None, None)
    {
      ExpectedAt(s, x, k);
    }
  }

  lemma ExpectedSnoc(s: seq<Reading>, x: Reading)
    ensures Expected(s + [x]) == Extended(Expected(s), x.running, x.ts)
  {
    if s == [] {
      ChangesSnoc(s, x);
      assert Changes([]) == [];
    } else {
      hide Expected;
      LastInterval(s);
      if x.running == s[|s| - 1].running { ExpectedSame(s, x); } else { ExpectedChange(s, x); }
    }
  }

  // ---------- rows and intervals ----------

  /** At most one row of an equipment is open, and it is the last. */
  ghost predicate RowsOk(rows: seq<Row>) {
    forall i, j :: 0 <= i < j < |rows| && rows[i].equip == rows[j].equip ==> rows[i].end.Some?
  }

  lemma IntervalsAppend(rows: seq<Row>, r: Row, equip: string)
    ensures Intervals(rows + [r], equip) == Intervals(rows, equip) + (if r.equip == equip then [IntervalOf(r)] else [])
  {
    assert (rows + [r])[..|rows|] == rows;
  }

  lemma {:induction false} OtherIntervals(rows: seq<Row>, c: nat, r: Row, equip: string)
    requires c < |rows| && r.equip == rows[c].equip != equip
    ensures Intervals(rows[c := r], equip) == Intervals(rows, equip)
  {
    var n, changed := |rows| - 1, rows[c := r];
    if c < n {
      OtherIntervals(rows[..n], c, r, equip);
      assert changed[..n] == rows[..n][c := r];
    } else {
      assert changed[..n] == rows[..n];
    }
  }

  lemma {:induction false} LastIntervals(rows: seq<Row>, c: nat, r: Row, equip: string)
    requires c < |rows| && r.equip == rows[c].equip == equip && forall i :: c < i < |rows| ==> rows[i].equip != equip
    ensures Intervals(rows, equip) != [] && Intervals(rows, equip)[|Intervals(rows, equip)| - 1] == IntervalOf(rows[c])
    ensures Intervals(rows[c := r], equip) == Intervals(rows, equip)[..|Intervals(rows, equip)| - 1] + [IntervalOf(r)]
  {
    var n, changed := |rows| - 1, rows[c := r];
    if c < n {
      LastIntervals(rows[..n], c, r, equip);
      assert changed[..n] == rows[..n][c := r];
    } else {
      assert changed[..n] == rows[..n];
    }
  }

  lemma {:induction false} IntervalRow(rows: seq<Row>, equip: string, k: nat) returns (i: nat)
    requires k < |Intervals(rows, equip)|
    ensures i < |rows| && rows[i].equip == equip && IntervalOf(rows[i]) == Intervals(rows, equip)[k]
  {
    var n := |rows| - 1;
    if k < |Intervals(rows[..n], equip)| { i := IntervalRow(rows[..n], equip, k); } else { i := n; }
  }

  predicate EndsOpen(r: seq<Interval>) {
    r != [] && r[|r| - 1].end.None?
  }

  lemma LastOpenIsLast(rows: seq<Row>, equip: string)
    requires RowsOk(rows)
    ensures match LastOpen(rows, equip)
            case None => !EndsOpen(Intervals(rows, equip))
            case Some(c) =>
              && (forall i :: c < i < |rows| ==> rows[i].equip != equip) && EndsOpen(Intervals(rows, equip))
              && Intervals(rows, equip)[|Intervals(rows, equip)| - 1] == IntervalOf(rows[c])
  {
    match LastOpen(rows, equip)
    case None =>
      if Intervals(rows, equip) != [] { var i := IntervalRow(rows, equip, |Intervals(rows, equip)| - 1); }
    case Some(c) =>
      LastIntervals(rows, c, rows[c], equip);
  }

  /** The cache, if it knows the equipment, agrees with its open row; without an open row there is none. */
  ghost predicate CacheOk(l: Log, equip: string) {
    var r := Intervals(l.rows, equip);
    (r != [] ==> EndsOpen(r)) && (equip in l.cache ==> r != [] && r[|r| - 1].running == l.cache[equip])
  }

  lemma CloseAndOpen(rows: seq<Row>, c: nat, closed: Row, next: Row, equip: string)
    requires c < |rows| && closed.equip == rows[c].equip == equip && next.equip == equip
    requires forall i :: c < i < |rows| ==> rows[i].equip != equip
    ensures var r := Intervals(rows, equip);
            r != [] && Intervals(rows[c := closed] + [next], equip) == r[..|r| - 1] + [IntervalOf(closed)] + [IntervalOf(next)]
  {
    LastIntervals(rows, c, closed, equip);
    IntervalsAppend(rows[c := closed], next, equip);
  }

  lemma PreviousIsLast(l: Log, equip: string)
    requires RowsOk(l.rows) && CacheOk(l, equip)
    ensures var r := Intervals(l.rows, equip); Previous(l, equip) == if r == [] then None else Some(r[|r| - 1].running)
    ensures Intervals(l.rows, equip) != [] ==> LastOpen(l.rows, equip).Some?
  {
    LastOpenIsLast(l.rows, equip);
  }

  lemma LoggedFirst(l: Log, equip: string, running: bool, ts: int)
    requires Previous(l, equip).None?
    ensures var m := Logged(l, equip, running, ts);
            Intervals(m.rows, equip) == Intervals(l.rows, equip) + [Interval(running, ts, None, None)]
            && m.cache == l.cache[equip := running]
  {
    hide LastOpen, Intervals, Previous, NextId;
    IntervalsAppend(l.rows, Row(NextId(l.rows), equip, running, ts, None, None), equip);
  }

  lemma LoggedChange(l: Log, equip: string, running: bool, ts: int)
    requires RowsOk(l.rows) && Previous(l, equip) == Some(!running) && LastOpen(l.rows, equip).Some?
    requires l.rows[LastOpen(l.rows, equip).value].running == !running
    ensures var r, m := Intervals(l.rows, equip), Logged(l, equip, running, ts);
            r != [] && Intervals(m.rows, equip) == r[..|r| - 1] + [Closing(r[|r| - 1], ts)] + [Interval(running, ts, None, None)]
            && m.cache == l.cache[equip := running]
  {
    LastOpenIsLast(l.rows, equip);
    hide LastOpen, RowsOk, Intervals, Previous, NextId;
    var c := LastOpen(l.rows, equip).value;
    var closed := ClosedRow(l.rows[c], ts, !running);
    CloseAndOpen(l.rows, c, closed, Row(NextId(l.rows[c := closed]), equip, running, ts, None, None), equip);
  }

  lemma LoggedExtends(l: Log, equip: string, running: bool, ts: int)
    requires RowsOk(l.rows) && CacheOk(l, equip)
    ensures var m := Logged(l, equip, running, ts);
            Intervals(m.rows, equip) == Extended(Intervals(l.rows, equip), running, ts)
            && m.cache == l.cache[equip := running]
  {
    PreviousIsLast(l, equip);
    LastOpenIsLast(l.rows, equip);
    var r := Intervals(l.rows, equip);
    hide LastOpen, RowsOk, Intervals, Previous, NextId, Closing;
    if r == [] {
      LoggedFirst(l, equip, running, ts);
      hide Logged;
    } else if r[|r| - 1].running != running {
      LoggedChange(l, equip, running, ts);
      hide Logged;
    }
  }

  lemma LoggedKey(l: Log, equip: string, running: bool, ts: int)
    requires RowsOk(l.rows) && CacheOk(l, equip)
    ensures Intervals(Logged(l, equip, running, ts).rows, equip) == Extended(Intervals(l.rows, equip), running, ts)
    ensures CacheOk(Logged(l, equip, running, ts), equip)
  {
    LoggedExtends(l, equip, running, ts);
    hide RowsOk, Intervals, Logged;
  }

  lemma LoggedOther(l: Log, equip: string, running: bool, ts: int, other: string)
    requires other != equip
    ensures Intervals(Logged(l, equip, running, ts).rows, other) == Intervals(l.rows, other)
    ensures CacheOk(l, other) ==> CacheOk(Logged(l, equip, running, ts), other)
  {
    hide Intervals;
    var prev, last := Previous(l, equip), LastOpen(l.rows, equip);
    if prev != Some(running) {
      if prev.Some? && last.Some? { OtherIntervals(l.rows, last.value, ClosedRow(l.rows[last.value], ts, prev.value), other); }
      var closed := if prev.Some? && last.Some? then l.rows[last.value := ClosedRow(l.rows[last.value], ts, prev.value)]
                    else l.rows;
      IntervalsAppend(closed, Row(NextId(closed), equip, running, ts, None, None), other);
    }
  }

  lemma LoggedRows(l: Log, equip: string, running: bool, ts: int)
    requires RowsOk(l.rows) && CacheOk(l, equip)
    ensures RowsOk(Logged(l, equip, running, ts).rows)
  {
    LastOpenIsLast(l.rows, equip);
    hide Intervals;
  }

  // ---------- the purge ----------

  lemma {:induction false} PurgedIntervals(rows: seq<Row>, equip: string, cutoff: int)
    ensures Intervals(Filter(rows, (r: Row) => !Expired(r.end, cutoff)), equip) ==
            Filter(Intervals(rows, equip), (i: Interval) => !Expired(i.end, cutoff))
  {
    if rows != [] {
      var n := |rows| - 1;
      var r, before := rows[n], Filter(rows[..n], (r: Row) => !Expired(r.end, cutoff));
      PurgedIntervals(rows[..n], equip, cutoff);
      IntervalsAppend(before, r, equip);
      FilterAppend(Intervals(rows[..n], equip), if r.equip == equip then [IntervalOf(r)] else [],
                   (i: Interval) => !Expired(i.end, cutoff));
      assert [IntervalOf(r)][..0] == [];
    }
  }

  lemma PurgedRows(l: Log, cutoff: int)
    requires RowsOk(l.rows)
    ensures RowsOk(Purged(l, cutoff).rows)
  {
    FilterKeepsOrder(l.rows, (r: Row) => !Expired(r.end, cutoff), (a: Row, b: Row) => a.equip == b.equip ==> a.end.Some?);
  }

  /** Ends never go back in time, and only the last interval has none. */
  ghost predicate Timely(r: seq<Interval>) {
    && EndsOpen(r)
    && (forall i, j :: 0 <= i < j < |r| - 1 ==> r[i].end.Some? && r[j].end.Some? && r[i].end.value <= r[j].end.value)
    && (forall i :: 0 <= i < |r| - 1 ==> r[i].end.Some?)
  }

  function ExpiredCount(r: seq<Interval>, cutoff: int): (n: nat)
    ensures n <= |r|
    ensures forall i :: 0 <= i < n ==> Expired(r[i].end, cutoff)
    ensures n < |r| ==> !Expired(r[n].end, cutoff)
  {
    if r == [] || !Expired(r[0].end, cutoff) then 0 else 1 + ExpiredCount(r[1..], cutoff)
  }

  lemma RestStays(r: seq<Interval>, cutoff: int, n: nat)
    requires Timely(r) && n < |r| && !Expired(r[n].end, cutoff)
    ensures forall i :: n <= i < |r| ==> !Expired(r[i].end, cutoff)
  {
    forall i | n <= i < |r|
      ensures !Expired(r[i].end, cutoff)
    {
      if n < i < |r| - 1 { assert r[n].end.value <= r[i].end.value; }
    }
  }

  lemma NoneKept(r: seq<Interval>, cutoff: int)
    requires forall k :: 0 <= k < |r| ==> Expired(r[k].end, cutoff)
    ensures Filter(r, (i: Interval) => !Expired(i.end, cutoff)) == []
  {
    hide Expired;
    FilterNone(r, (i: Interval) => !Expired(i.end, cutoff));
  }

  lemma AllKept(r: seq<Interval>, cutoff: int)
    requires forall k :: 0 <= k < |r| ==> !Expired(r[k].end, cutoff)
    ensures Filter(r, (i: Interval) => !Expired(i.end, cutoff)) == r
  {
    hide Expired;
    FilterAll(r, (i: Interval) => !Expired(i.end, cutoff));
  }

  lemma OpenStays(r: seq<Interval>, cutoff: int)
    requires EndsOpen(r)
    ensures ExpiredCount(r, cutoff) < |r|
  {
  }

  lemma SplitFilter(r: seq<Interval>, cutoff: int, n: nat)
    requires n <= |r|
    requires forall k :: 0 <= k < n ==> Expired(r[k].end, cutoff)
    requires forall k :: n <= k < |r| ==> !Expired(r[k].end, cutoff)
    ensures Filter(r, (i: Interval) => !Expired(i.end, cutoff)) == r[n..]
  {
    hide Expired, Filter;
    NoneKept(r[..n], cutoff);
    AllKept(r[n..], cutoff);
    FilterAppend(r[..n], r[n..], (i: Interval) => !Expired(i.end, cutoff));
    assert r == r[..n] + r[n..];
  }

  /** A purge takes intervals from the front only. */
  lemma PurgeTakesTheFront(r: seq<Interval>, cutoff: int) returns (n: nat)
    requires Timely(r)
    ensures n < |r| && Filter(r, (i: Interval) => !Expired(i.end, cutoff)) == r[n..]
  {
    hide ExpiredCount, Filter, Expired;
    n := ExpiredCount(r, cutoff);
    OpenStays(r, cutoff);
    RestStays(r, cutoff, n);
    hide Timely;
    SplitFilter(r, cutoff, n);
  }

  lemma ExpectedTimely(s: seq<Reading>, k: nat)
    requires Ordered(s) && s != [] && k < |Expected(s)|
    ensures Timely(Expected(s)[k..])
  {
    var c, r := Changes(s), Expected(s);
    LastInterval(s);
    hide Changes;
    var t := r[k..];
    forall i, j | 0 <= i < j < |t| - 1
      ensures t[i].end.Some? && t[j].end.Some? && t[i].end.value <= t[j].end.value
    {
      assert t[i] == IntervalBetween(s, c, k + i) && t[j] == IntervalBetween(s, c, k + j);
      assert c[k + i + 1] < c[k + j + 1];
    }
    forall i | 0 <= i < |t| - 1
      ensures t[i].end.Some?
    {
      assert t[i] == IntervalBetween(s, c, k + i);
    }
  }

  // ---------- runs ----------

  datatype Op = Observe(equip: string, running: bool, ts: int) | Purge(cutoff: int) | Restart

  function Apply(l: Log, op: Op): Log {
    match op
    case Observe(equip, running, ts) => Logged(l, equip, running, ts)
    case Purge(cutoff) => Purged(l, cutoff)
    case Restart => Log(l.rows, map[])
  }

  function Run(ops: seq<Op>): Log {
    if ops == [] then Log([], map[]) else Apply(Run(ops[..|ops| - 1]), ops[|ops| - 1])
  }

  function ReadingsOf(ops: seq<Op>, equip: string): seq<Reading> {
    if ops == [] then []
    else
      var op := ops[|ops| - 1];
      ReadingsOf(ops[..|ops| - 1], equip)
      + (if op.Observe? && op.equip == equip then [Reading(op.ts, op.running)] else [])
  }

  lemma {:induction false} RowsStayOk(ops: seq<Op>, equip: string)
    ensures RowsOk(Run(ops).rows) && CacheOk(Run(ops), equip)
  {
    if ops != [] {
      var l, op := Run(ops[..|ops| - 1]), ops[|ops| - 1];
      RowsStayOk(ops[..|ops| - 1], equip);
      hide RowsOk, CacheOk, Logged, Purged;
      match op
      case Observe(e, running, ts) =>
        RowsStayOk(ops[..|ops| - 1], e);
        LoggedRows(l, e, running, ts);
        if e == equip { LoggedKey(l, e, running, ts); } else { LoggedOther(l, e, running, ts, equip); }
      case Purge(cutoff) =>
        PurgedRows(l, cutoff);
        PurgedCache(l, cutoff, equip);
      case Restart => RestartCache(l, equip);
    }
  }

  lemma RestartCache(l: Log, equip: string)
    requires CacheOk(l, equip)
    ensures CacheOk(Log(l.rows, map[]), equip)
  {
  }

  lemma PurgedCache(l: Log, cutoff: int, equip: string)
    requires CacheOk(l, equip)
    ensures CacheOk(Purged(l, cutoff), equip)
  {
    var r, keep := Intervals(l.rows, equip), (i: Interval) => !Expired(i.end, cutoff);
    PurgedIntervals(l.rows, equip, cutoff);
    hide Intervals;
    if r != [] {
      assert Filter(r, keep) == Filter(r[..|r| - 1], keep) + [r[|r| - 1]];
    }
  }

  /** The rows of the equipment are the expected intervals from the k-th on. */
  ghost predicate Shows(l: Log, equip: string, s: seq<Reading>, k: nat) {
    && k <= |Expected(s)| && Intervals(l.rows, equip) == Expected(s)[k..] && (s != [] ==> k < |Expected(s)|)
    && (equip in l.cache ==> s != [] && l.cache[equip] == s[|s| - 1].running)
  }

  lemma ShowsObserved(l: Log, equip: string, s: seq<Reading>, k: nat, running: bool, ts: int)
    requires RowsOk(l.rows) && CacheOk(l, equip) && Shows(l, equip, s, k)
    ensures Shows(Logged(l, equip, running, ts), equip, s + [Reading(ts, running)], k)
  {
    hide RowsOk, CacheOk, Logged, Expected, Intervals;
    var more, t := Logged(l, equip, running, ts), s + [Reading(ts, running)];
    LoggedKey(l, equip, running, ts);
    ExpectedSnoc(s, Reading(ts, running));
    EmptyExpected(s);
    ExtendedSuffix(Expected(s), k, running, ts);
    CacheIsLast(more, t, k, equip);
  }

  lemma EmptyExpected(s: seq<Reading>)
    ensures Expected(s) == [] <==> s == []
  {
    if s != [] { LastInterval(s); }
  }

  lemma ShowsOther(l: Log, equip: string, s: seq<Reading>, k: nat, other: string, running: bool, ts: int)
    requires Shows(l, equip, s, k) && other != equip
    ensures Shows(Logged(l, other, running, ts), equip, s, k)
  {
    LoggedOther(l, other, running, ts, equip);
    hide Intervals, Expected;
  }

  lemma ShowsPurged(l: Log, equip: string, s: seq<Reading>, k: nat, cutoff: int) returns (m: nat)
    requires Shows(l, equip, s, k) && Ordered(s)
    ensures Shows(Purged(l, cutoff), equip, s, m)
  {
    hide Intervals, Expected, Ordered, Filter, Timely, Changes;
    PurgedIntervals(l.rows, equip, cutoff);
    m := k;
    EmptyExpected(s);
    if s != [] {
      ExpectedTimely(s, k);
      var n := PurgeTakesTheFront(Expected(s)[k..], cutoff);
      assert Expected(s)[k..][n..] == Expected(s)[k + n..];
      m := k + n;
    }
  }

  /** For one equipment sampled in time order, with other equipment, restarts and purges in between: its
      rows are the intervals between its state changes, from some interval on (purges take whole
      intervals from the front), the last of them open; and the cached state, if any, is the current
      one. So at most one row is open, and neighbouring rows alternate and abut. */
  lemma {:induction false} RunLogIsTheIntervals(ops: seq<Op>, equip: string) returns (k: nat)
    requires Ordered(ReadingsOf(ops, equip))
    ensures Shows(Run(ops), equip, ReadingsOf(ops, equip), k)
    ensures (forall op :: op in ops ==> !op.Purge?) ==> k == 0
  {
    if ops == [] {
      k := 0;
      ShowsNothing(equip);
    } else {
      var n := |ops| - 1;
      assert ops[n] in ops && forall o :: o in ops[..n] ==> o in ops;
      OrderedPrefix(ReadingsOf(ops, equip), |ReadingsOf(ops[..n], equip)|);
      assert ReadingsOf(ops[..n], equip) == ReadingsOf(ops, equip)[..|ReadingsOf(ops[..n], equip)|];
      hide Shows, Ordered, Apply;
      k := RunLogIsTheIntervals(ops[..n], equip);
      RowsStayOk(ops[..n], equip);
      hide RowsOk, CacheOk;
      k := ShowsStep(Run(ops[..n]), ops[n], equip, ReadingsOf(ops[..n], equip), k);
    }
  }

  lemma ShowsNothing(equip: string)
    ensures Shows(Log([], map[]), equip, [], 0)
  {
    EmptyExpected([]);
  }

  lemma ShowsStep(l: Log, op: Op, equip: string, s: seq<Reading>, k: nat) returns (m: nat)
    requires RowsOk(l.rows) && CacheOk(l, equip) && Shows(l, equip, s, k) && Ordered(s)
    ensures Shows(Apply(l, op), equip, s + (if op.Observe? && op.equip == equip then [Reading(op.ts, op.running)] else []), m)
    ensures !op.Purge? ==> m == k
  {
    hide RowsOk, CacheOk, Logged, Purged, Ordered, Shows;
    m := k;
    assert s + [] == s;
    match op
    case Observe(e, running, ts) =>
      if e == equip { ShowsObserved(l, equip, s, k, running, ts); } else { ShowsOther(l, equip, s, k, e, running, ts); }
    case Purge(cutoff) =>
      m := ShowsPurged(l, equip, s, k, cutoff);
    case Restart =>
      ShowsRestarted(l, equip, s, k);
  }

  lemma ShowsRestarted(l: Log, equip: string, s: seq<Reading>, k: nat)
    requires Shows(l, equip, s, k)
    ensures Shows(Log(l.rows, map[]), equip, s, k)
  {
  }

  lemma OrderedPrefix(s: seq<Reading>, n: nat)
    requires Ordered(s) && n <= |s|
    ensures Ordered(s[..n])
  {
  }

  lemma ExtendedSuffix(r: seq<Interval>, k: nat, running: bool, ts: int)
    requires k <= |r| && (r != [] ==> k < |r|)
    ensures k < |Extended(r, running, ts)| && Extended(r[k..], running, ts) == Extended(r, running, ts)[k..]
  {
  }

  lemma CacheIsLast(l: Log, s: seq<Reading>, k: nat, equip: string)
    requires CacheOk(l, equip) && s != [] && k < |Expected(s)| && Intervals(l.rows, equip) == Expected(s)[k..]
    ensures equip in l.cache ==> l.cache[equip] == s[|s| - 1].running
  {
    LastInterval(s);
    hide Expected, Intervals;
  }
}
