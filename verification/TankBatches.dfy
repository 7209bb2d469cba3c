// Pickling batches per tank: whoever logs a salinity value first brings the tank's batches up to date,
// closing every one whose planned time is over.

module TankBatches {
  import opened Outcomes

  /** A row of the tank operation table.  Times and the planned length are in milliseconds. */
  datatype Batch = Batch(id: nat, tank: int, target: real, length: int, start: int, end: Option<int>, open: bool)

  datatype Plan = Plan(target: real, length: int)

  /** A batch of one tank, without the row number. */
  datatype Leg = Leg(target: real, length: int, start: int, end: Option<int>)

  function LegOf(b: Batch): Leg {
    Leg(b.target, b.length, b.start, b.end)
  }

  function Legs(rows: seq<Batch>, tank: int): seq<Leg> {
    if rows == [] then []
    else
      var b := rows[|rows| - 1];
      Legs(rows[..|rows| - 1], tank) + (if b.tank == tank then [LegOf(b)] else [])
  }

  function NextId(rows: seq<Batch>): nat {
    if rows == [] then 1 else rows[|rows| - 1].id + 1
  }

  /** SELECT ... WHERE TANK_NO = tank AND open ORDER BY id DESC LIMIT 1 */
  function Current(rows: seq<Batch>, tank: int): (r: Option<nat>)
    ensures r.Some? ==> r.value < |rows| && rows[r.value].tank == tank && rows[r.value].open
    ensures r.None? ==> forall i :: 0 <= i < |rows| && rows[i].tank == tank ==> !rows[i].open
  {
    if rows == [] then None
    else if rows[|rows| - 1].tank == tank && rows[|rows| - 1].open then Some(|rows| - 1)
    else Current(rows[..|rows| - 1], tank)
  }

  // ---------- what the table should look like ----------

  ghost predicate RowsOk(rows: seq<Batch>) {
    && (forall i, j :: 0 <= i < j < |rows| ==> rows[i].id < rows[j].id)
    && (forall i, j :: 0 <= i < j < |rows| && rows[i].tank == rows[j].tank ==> !rows[i].open)
    && (forall i :: 0 <= i < |rows| ==> rows[i].length > 0 && (rows[i].open <==> rows[i].end.None?))
  }

  predicate Running(legs: seq<Leg>) {
    legs != [] && legs[|legs| - 1].end.None?
  }

  /** The batches of a tank abut, each closed one exactly its planned length, and exactly the last is open. */
  ghost predicate Abutting(legs: seq<Leg>) {
    && Running(legs)
    && (forall i :: 0 <= i < |legs| ==> legs[i].length > 0)
    && (forall i :: 0 <= i < |legs| - 1 ==> legs[i].end == Some(legs[i].start + legs[i].length) == Some(legs[i + 1].start))
    && (forall i :: 0 <= i < |legs| - 1 ==> legs[i].length == legs[i + 1].length && legs[i].target == legs[i + 1].target)
  }

  // ---------- bringing a tank up to date ----------

  /** When the n-th batch after this one starts, each lasting its planned length. */
  function StartOf(leg: Leg, n: nat): int {
    leg.start + n * leg.length
  }

  /** How many batches are over, starting with this one: max(0, floor((ts - start) / length)). */
  function Due(leg: Leg, ts: int): nat
    requires leg.length > 0
  {
    if ts < leg.start then 0 else Quotient(ts - leg.start, leg.length)
  }

  function Quotient(d: int, length: int): nat
    requires d >= 0 && length > 0
  {
    QuotientBounds(d, length);
    d / length
  }

  lemma QuotientBounds(d: int, length: int)
    requires d >= 0 && length > 0
    ensures d / length >= 0 && d / length * length <= d < (d / length + 1) * length
  {
  }

  lemma DueBounds(leg: Leg, ts: int)
    requires leg.length > 0
    ensures var n := Due(leg, ts); (n > 0 ==> StartOf(leg, n) <= ts) && ts < StartOf(leg, n + 1)
  {
    if ts >= leg.start { QuotientBounds(ts - leg.start, leg.length); }
  }

  function Over(leg: Leg, n: nat): (legs: seq<Leg>)
    ensures |legs| == n
    ensures forall i :: 0 <= i < n ==> legs[i] == leg.(start := StartOf(leg, i), end := Some(StartOf(leg, i) + leg.length))
  {
    seq(n, i requires 0 <= i < n => leg.(start := StartOf(leg, i), end := Some(StartOf(leg, i) + leg.length)))
  }

  /** The batches after n of them are over. */
  function Rolled(legs: seq<Leg>, n: nat): seq<Leg>
    requires legs != []
  {
    var last := legs[|legs| - 1];
    legs[..|legs| - 1] + Over(last, n) + [last.(start := StartOf(last, n), end := None)]
  }

  /** A tank with no open batch starts one by its plan. */
  function Started(legs: seq<Leg>, plan: Option<Plan>, ts: int): seq<Leg> {
    if !Running(legs) && plan.Some? then legs + [Leg(plan.value.target, plan.value.length, ts, None)] else legs
  }

  function PlanOf(tanks: map<int, Plan>, tank: int): Option<Plan> {
    if tank in tanks then Some(tanks[tank]) else None
  }

  ghost predicate PositiveLengths(legs: seq<Leg>, plan: Option<Plan>) {
    (forall i :: 0 <= i < |legs| ==> legs[i].length > 0) && (plan.Some? ==> plan.value.length > 0)
  }

  function UpToDate(legs: seq<Leg>, plan: Option<Plan>, ts: int): seq<Leg>
    requires PositiveLengths(legs, plan)
  {
    var begun := Started(legs, plan, ts);
    if Running(begun) then Rolled(begun, Due(begun[|begun| - 1], ts)) else legs
  }

  // ---------- rows and legs ----------

  lemma LegsAppend(rows: seq<Batch>, b: Batch, tank: int)
    ensures Legs(rows + [b], tank) == Legs(rows, tank) + (if b.tank == tank then [LegOf(b)] else [])
  {
    assert (rows + [b])[..|rows|] == rows;
  }

  lemma {:induction false} OtherLegs(rows: seq<Batch>, c: nat, b: Batch, tank: int)
    requires c < |rows| && b.tank == rows[c].tank != tank
    ensures Legs(rows[c := b], tank) == Legs(rows, tank)
  {
    var n, changed := |rows| - 1, rows[c := b];
    if c < n {
      OtherLegs(rows[..n], c, b, tank);
      assert changed[..n] == rows[..n][c := b];
    } else {
      assert changed[..n] == rows[..n];
    }
  }

  /** The last leg of a tank, if there is no row of the tank behind it. */
  lemma {:induction false} LastLegs(rows: seq<Batch>, c: nat, b: Batch, tank: int)
    requires c < |rows| && b.tank == rows[c].tank == tank && forall i :: c < i < |rows| ==> rows[i].tank != tank
    ensures Legs(rows, tank) != [] && Legs(rows, tank)[|Legs(rows, tank)| - 1] == LegOf(rows[c])
    ensures Legs(rows[c := b], tank) == Legs(rows, tank)[..|Legs(rows, tank)| - 1] + [LegOf(b)]
  {
    var n, changed := |rows| - 1, rows[c := b];
    if c < n {
      LastLegs(rows[..n], c, b, tank);
      assert changed[..n] == rows[..n][c := b];
    } else {
      assert changed[..n] == rows[..n];
    }
  }

  lemma {:induction false} LegRow(rows: seq<Batch>, tank: int, k: nat) returns (i: nat)
    requires k < |Legs(rows, tank)|
    ensures i < |rows| && rows[i].tank == tank && LegOf(rows[i]) == Legs(rows, tank)[k]
  {
    var n := |rows| - 1;
    if k < |Legs(rows[..n], tank)| { i := LegRow(rows[..n], tank, k); } else { i := n; }
  }

  lemma NoCurrentNotRunning(rows: seq<Batch>, tank: int)
    requires RowsOk(rows) && Current(rows, tank).None?
    ensures !Running(Legs(rows, tank))
  {
    if Legs(rows, tank) != [] { var i := LegRow(rows, tank, |Legs(rows, tank)| - 1); }
  }

  lemma CurrentIsLast(rows: seq<Batch>, tank: int)
    requires RowsOk(rows) && Current(rows, tank).Some?
    ensures var c := Current(rows, tank).value;
            (forall i :: c < i < |rows| ==> rows[i].tank != tank) && Running(Legs(rows, tank))
            && Legs(rows, tank)[|Legs(rows, tank)| - 1] == LegOf(rows[c])
  {
    var c := Current(rows, tank).value;
    LastLegs(rows, c, rows[c], tank);
  }

  lemma LegsPositive(rows: seq<Batch>, tank: int)
    requires RowsOk(rows)
    ensures forall k :: 0 <= k < |Legs(rows, tank)| ==> Legs(rows, tank)[k].length > 0
  {
    forall k | 0 <= k < |Legs(rows, tank)|
      ensures Legs(rows, tank)[k].length > 0
    {
      var i := LegRow(rows, tank, k);
    }
  }

  // ---------- rolling on ----------

  lemma RolledNone(legs: seq<Leg>)
    requires Running(legs)
    ensures Rolled(legs, 0) == legs
  {
  }

  /** Closing the open batch at its planned end and opening the next. */
  lemma RolledNext(legs: seq<Leg>, n: nat)
    requires Running(legs)
    ensures var r := Rolled(legs, n); var b := r[|r| - 1];
            Rolled(legs, n + 1) == r[..|r| - 1] + [b.(end := Some(b.start + b.length))] + [b.(start := b.start + b.length)]
  {
    var last, r := legs[|legs| - 1], Rolled(legs, n);
    assert r[..|r| - 1] == legs[..|legs| - 1] + Over(last, n);
    NextStart(last, n);
    hide StartOf;
    assert Over(last, n + 1) == Over(last, n) + [last.(start := StartOf(last, n), end := Some(StartOf(last, n) + last.length))];
  }

  lemma NextStart(leg: Leg, n: nat)
    ensures StartOf(leg, n + 1) == StartOf(leg, n) + leg.length && StartOf(leg, 0) == leg.start
  {
  }

  lemma StartsAscend(leg: Leg, m: nat, n: nat)
    requires leg.length > 0 && m <= n
    ensures StartOf(leg, m) <= StartOf(leg, n)
  {
    MulMonotone(m, n, leg.length);
  }

  lemma DueReached(leg: Leg, ts: int, n: nat)
    requires leg.length > 0 && n <= Due(leg, ts) && ts < StartOf(leg, n) + leg.length
    ensures n == Due(leg, ts)
  {
    var d := Due(leg, ts);
    DueBounds(leg, ts);
    NextStart(leg, n);
    if n < d { StartsAscend(leg, n + 1, d); }
    hide Due, StartOf;
  }

  lemma MulMonotone(a: int, b: int, c: int)
    requires a <= b && c > 0
    ensures a * c <= b * c
  {
  }

  lemma StartCurrent(rows: seq<Batch>, tank: int)
    requires RowsOk(rows)
    ensures Current(rows, tank).None? <==> !Running(Legs(rows, tank))
    ensures Running(Legs(rows, tank)) ==> Rolled(Legs(rows, tank), 0) == Legs(rows, tank)
  {
    if Current(rows, tank).None? { NoCurrentNotRunning(rows, tank); } else { CurrentIsLast(rows, tank); }
    if Running(Legs(rows, tank)) { RolledNone(Legs(rows, tank)); }
  }

  lemma AppendRow(rows: seq<Batch>, b: Batch, tank: int)
    requires RowsOk(rows) && Current(rows, tank).None? && b.tank == tank && b.id == NextId(rows)
    requires b.open && b.end.None? && b.length > 0
    ensures RowsOk(rows + [b]) && Current(rows + [b], tank) == Some(|rows|)
    ensures Legs(rows + [b], tank) == Legs(rows, tank) + [LegOf(b)]
    ensures forall other :: other != tank ==> Legs(rows + [b], other) == Legs(rows, other)
  {
    hide Legs;
    LegsAppend(rows, b, tank);
    forall other | other != tank
      ensures Legs(rows + [b], other) == Legs(rows, other)
    {
      LegsAppend(rows, b, other);
    }
    AppendRowOk(rows, b);
  }

  lemma AppendRowOk(rows: seq<Batch>, b: Batch)
    requires RowsOk(rows) && Current(rows, b.tank).None? && b.id == NextId(rows) && b.open && b.end.None? && b.length > 0
    ensures RowsOk(rows + [b])
  {
    hide Current;
    var more := rows + [b];
    forall i | 0 <= i < |rows|
      ensures more[i] == rows[i] && rows[i].id < b.id
    {
      assert rows[i].id <= rows[|rows| - 1].id;
    }
  }

  /** Closing the open row of a tank and adding the next: the two statements of one turn of the loop. */
  lemma CloseRow(rows: seq<Batch>, c: nat, closed: Batch, next: Batch, tank: int)
    requires RowsOk(rows) && Current(rows, tank) == Some(c) && next.length > 0 && next.tank == tank
    requires closed == rows[c].(open := false, end := closed.end) && closed.end.Some?
    requires next.id == NextId(rows) && next.open && next.end.None?
    ensures RowsOk(rows[c := closed] + [next]) && Current(rows[c := closed] + [next], tank) == Some(|rows|)
    ensures var legs := Legs(rows, tank);
            legs != []
            && Legs(rows[c := closed] + [next], tank) == legs[..|legs| - 1] + [LegOf(closed)] + [LegOf(next)]
    ensures forall other :: other != tank ==> Legs(rows[c := closed] + [next], other) == Legs(rows, other)
  {
    CurrentIsLast(rows, tank);
    LastLegs(rows, c, closed, tank);
    LegsAppend(rows[c := closed], next, tank);
    forall other | other != tank
      ensures Legs(rows[c := closed] + [next], other) == Legs(rows, other)
    {
      OtherLegs(rows, c, closed, other);
      LegsAppend(rows[c := closed], next, other);
    }
    CloseRowOk(rows, c, closed, next, tank);
  }

  lemma CloseRowOk(rows: seq<Batch>, c: nat, closed: Batch, next: Batch, tank: int)
    requires RowsOk(rows) && Current(rows, tank) == Some(c) && next.length > 0 && next.tank == tank
    requires closed == rows[c].(open := false, end := closed.end) && closed.end.Some?
    requires next.id == NextId(rows) && next.open && next.end.None?
    ensures RowsOk(rows[c := closed] + [next])
  {
    CurrentIsLast(rows, tank);
    hide Current, Legs;
    var more := rows[c := closed] + [next];
    forall i | 0 <= i < |rows|
      ensures more[i].id == rows[i].id <= rows[|rows| - 1].id && more[i].tank == rows[i].tank
      ensures more[i].open <==> rows[i].open && i != c
      ensures rows[i].tank == tank && i != c ==> !rows[i].open
    {
    }
  }

  lemma RolledLast(legs: seq<Leg>, n: nat)
    requires Running(legs)
    ensures Running(Rolled(legs, n))
    ensures var r, last := Rolled(legs, n), legs[|legs| - 1];
            r[|r| - 1] == last.(start := StartOf(last, n), end := None)
  {
  }

  lemma NotYet(leg: Leg, ts: int, n: nat)
    requires leg.length > 0 && n <= Due(leg, ts) && StartOf(leg, n) + leg.length <= ts
    ensures n < Due(leg, ts)
  {
    NextStart(leg, n);
    DueBounds(leg, ts);
    hide Due, StartOf;
  }

  class TankStore {
    const tanks: map<int, Plan>
    var rows: seq<Batch>

    ghost predicate Valid()
      reads this
    {
      RowsOk(rows) && forall tank :: tank in tanks ==> tanks[tank].length > 0
    }

    constructor (tanks: map<int, Plan>, stored: seq<Batch>)
      requires RowsOk(stored) && forall tank :: tank in tanks ==> tanks[tank].length > 0
      ensures Valid() && this.tanks == tanks && rows == stored
    {
      this.tanks, rows := tanks, stored;
    }

    /** `_tank_opr`; it fails for a tank that has no open batch and is not configured. */
    method TankOpr(tank: int, ts: int) returns (current: Option<Batch>)
      requires Valid()
      modifies this`rows
      ensures Valid()
      ensures PositiveLengths(old(Legs(rows, tank)), PlanOf(tanks, tank))
      ensures Legs(rows, tank) == UpToDate(old(Legs(rows, tank)), PlanOf(tanks, tank), ts)
      ensures forall other :: other != tank ==> Legs(rows, other) == old(Legs(rows, other))
      ensures current.None? <==> !Running(old(Legs(rows, tank))) && tank !in tanks
      ensures current.Some? ==> current.value in rows && current.value.tank == tank && current.value.open
                                && ts < current.value.start + current.value.length
    {
      hide Legs, Rolled, Over, Current, RowsOk, Due, NextId, StartOf;
      ghost var before, legs := rows, Legs(rows, tank);
      ghost var begun := Started(legs, PlanOf(tanks, tank), ts);
      ghost var k: nat, due: nat := 0, 0;
      LegsPositive(rows, tank);
      StartCurrent(rows, tank);
      if Running(begun) { due := Due(begun[|begun| - 1], ts); }
      while true
        invariant Valid() && legs == Legs(before, tank) && PositiveLengths(legs, PlanOf(tanks, tank))
        invariant forall other :: other != tank ==> Legs(rows, other) == Legs(before, other)
        invariant Current(rows, tank).None? ==> rows == before && k == 0 && !Running(legs)
        invariant Current(rows, tank).Some? ==>
                    Running(begun) && k <= due == Due(begun[|begun| - 1], ts) && Legs(rows, tank) == Rolled(begun, k)
        decreases if Current(rows, tank).None? then 1 else 0, due - k
      {
        var row := Current(rows, tank);
        if row.None? {
          if tank !in tanks { return None; }
          ghost var was := rows;
          var b := Batch(NextId(rows), tank, tanks[tank].target, tanks[tank].length, ts, None, true);
          AppendRow(rows, b, tank);
          RolledNone(begun);
          rows := rows + [b];
          continue;
        }
        var c := row.value;
        var b := rows[c];
        CurrentIsLast(rows, tank);
        RolledLast(begun, k);
        var end := b.start + b.length;
        if ts < end {
          DueReached(begun[|begun| - 1], ts, k);
          return Some(b);
        }
        ghost var was := rows;
        NotYet(begun[|begun| - 1], ts, k);
        RolledNext(begun, k);
        var closed := b.(open := false, end := Some(end));
        var next := Batch(NextId(rows), tank, b.target, b.length, end, None, true);
        CloseRow(rows, c, closed, next, tank);
        rows := rows[c := closed] + [next];
        k := k + 1;
      }
    }
  }

  // ---------- over any run of calls ----------

  lemma ClosingAbuts(legs: seq<Leg>)
    requires Abutting(legs)
    ensures legs != []
    ensures var b := legs[|legs| - 1];
            Abutting(legs[..|legs| - 1] + [b.(end := Some(b.start + b.length))] + [b.(start := b.start + b.length)])
  {
  }

  lemma RolledLength(legs: seq<Leg>, n: nat)
    requires Running(legs)
    ensures |Rolled(legs, n)| == |legs| + n
  {
  }

  lemma {:induction false} RolledAbuts(legs: seq<Leg>, n: nat)
    requires Running(legs) && Abutting(legs)
    ensures Abutting(Rolled(legs, n))
  {
    hide Abutting, Rolled, StartOf;
    if n == 0 {
      RolledNone(legs);
    } else {
      RolledAbuts(legs, n - 1);
      RolledNext(legs, n - 1);
      ClosingAbuts(Rolled(legs, n - 1));
    }
  }

  lemma RolledPrefix(legs: seq<Leg>, n: nat)
    requires Running(legs)
    ensures var k, r := |legs| - 1, Rolled(legs, n); r[..k] == legs[..k] && r[k].start == legs[k].start
  {
    NextStart(legs[|legs| - 1], 0);
  }

  /** A tank with a chain of abutting batches keeps one, with exactly one batch open; the batches closed by
      a call number max(0, floor((ts - start) / length)), and what was there before stays. */
  lemma UpToDateAbuts(legs: seq<Leg>, plan: Option<Plan>, ts: int)
    requires PositiveLengths(legs, plan) && Abutting(legs)
    ensures var k, r := |legs| - 1, UpToDate(legs, plan, ts);
            && Abutting(r) && |r| - |legs| == Due(legs[k], ts)
            && r[..k] == legs[..k] && r[k].start == legs[k].start
            && ts < r[|r| - 1].start + r[|r| - 1].length
  {
    var last := legs[|legs| - 1];
    var n := Due(last, ts);
    RolledAbuts(legs, n);
    RolledLength(legs, n);
    RolledPrefix(legs, n);
    RolledLast(legs, n);
    DueBounds(last, ts);
    NextStart(last, n);
  }

  /** A tank without batches gets its first one, by its plan, from the time of the value on. */
  lemma FirstBatch(plan: Plan, ts: int)
    requires plan.length > 0
    ensures UpToDate([], Some(plan), ts) == [Leg(plan.target, plan.length, ts, None)]
    ensures Abutting(UpToDate([], Some(plan), ts))
  {
    var leg := Leg(plan.target, plan.length, ts, None);
    NothingDue(leg, ts);
    RolledNone([leg]);
    assert [] + [leg] == [leg];
  }

  lemma DueAdds(leg: Leg, n: nat, ts: int)
    requires leg.length > 0 && (n > 0 ==> StartOf(leg, n) <= ts)
    ensures Due(leg, ts) == n + Due(leg.(start := StartOf(leg, n)), ts)
  {
    var later := leg.(start := StartOf(leg, n));
    var m := Due(later, ts);
    DueBounds(later, ts);
    StartsAdd(leg, n, m);
    StartsAdd(leg, n, m + 1);
    hide Due, StartOf;
    DueUnique(leg, ts, n + m);
  }

  lemma StartsAdd(leg: Leg, m: nat, n: nat)
    ensures StartOf(leg.(start := StartOf(leg, m)), n) == StartOf(leg, m + n)
  {
    assert (m + n) * leg.length == m * leg.length + n * leg.length;
  }

  lemma DueUnique(leg: Leg, ts: int, n: nat)
    requires leg.length > 0 && (n > 0 ==> StartOf(leg, n) <= ts) && ts < StartOf(leg, n + 1)
    ensures n == Due(leg, ts)
  {
    var d := Due(leg, ts);
    DueBounds(leg, ts);
    if n < d { StartsAscend(leg, n + 1, d); }
    if d < n { StartsAscend(leg, d + 1, n); }
    hide Due, StartOf;
  }

  lemma {:induction false} RolledTwice(legs: seq<Leg>, m: nat, n: nat)
    requires Running(legs)
    ensures Running(Rolled(legs, m)) && Rolled(Rolled(legs, m), n) == Rolled(legs, m + n)
  {
    RolledLast(legs, m);
    hide Rolled;
    if n == 0 {
      RolledNone(Rolled(legs, m));
    } else {
      RolledTwice(legs, m, n - 1);
      RolledNext(legs, m + n - 1);
      RolledNext(Rolled(legs, m), n - 1);
    }
  }

  lemma RolledPositive(legs: seq<Leg>, n: nat)
    requires Running(legs) && forall i :: 0 <= i < |legs| ==> legs[i].length > 0
    ensures forall i :: 0 <= i < |Rolled(legs, n)| ==> Rolled(legs, n)[i].length > 0
  {
    hide StartOf;
  }

  /** Only the latest time counts: values in between, late, or repeated make no difference. */
  lemma OnlyTheLatestCounts(legs: seq<Leg>, plan: Option<Plan>, first: int, second: int)
    requires PositiveLengths(legs, plan) && Running(legs)
    ensures PositiveLengths(UpToDate(legs, plan, first), plan)
    ensures UpToDate(UpToDate(legs, plan, first), plan, second) ==
            UpToDate(legs, plan, if first <= second then second else first)
  {
    hide Rolled, StartOf, Due;
    var last := legs[|legs| - 1];
    var m := Due(last, first);
    var b := last.(start := StartOf(last, m), end := None);
    RolledLast(legs, m);
    RolledPositive(legs, m);
    DueBounds(last, first);
    RolledTwice(legs, m, Due(b, second));
    NextStart(last, m);
    if first <= second {
      DueAdds(last, m, second);
    } else {
      NothingDue(b, second);
    }
  }

  lemma NothingDue(leg: Leg, ts: int)
    requires leg.length > 0 && ts < leg.start + leg.length
    ensures Due(leg, ts) == 0
  {
    NextStart(leg, 0);
    DueUnique(leg, ts, 0);
  }

  lemma UpToDateRuns(legs: seq<Leg>, plan: Option<Plan>, ts: int)
    requires PositiveLengths(legs, plan) && Running(legs)
    ensures PositiveLengths(UpToDate(legs, plan, ts), plan) && Running(UpToDate(legs, plan, ts))
  {
    RolledLast(legs, Due(legs[|legs| - 1], ts));
    RolledPositive(legs, Due(legs[|legs| - 1], ts));
  }

  function AfterCalls(legs: seq<Leg>, plan: Option<Plan>, times: seq<int>): (r: seq<Leg>)
    requires PositiveLengths(legs, plan) && Running(legs)
    ensures PositiveLengths(r, plan) && Running(r)
  {
    if times == [] then legs
    else
      var before := AfterCalls(legs, plan, times[..|times| - 1]);
      UpToDateRuns(before, plan, times[|times| - 1]);
      UpToDate(before, plan, times[|times| - 1])
  }

  function Latest(times: seq<int>): (t: int)
    requires times != []
    ensures t in times && forall x :: x in times ==> x <= t
  {
    var n := |times| - 1;
    if n == 0 then times[0]
    else
      var t := Latest(times[..n]);
      assert forall x :: x in times ==> x in times[..n] || x == times[n];
      if t <= times[n] then times[n] else t
  }

  /** Over any sequence of calls the batches of a tank abut, each closed one lasts exactly its planned
      length, one is open, and all depends on the latest time alone. */
  lemma {:induction false} AnyCallsAbut(legs: seq<Leg>, plan: Option<Plan>, times: seq<int>)
    requires PositiveLengths(legs, plan) && Abutting(legs) && Running(legs) && times != []
    ensures AfterCalls(legs, plan, times) == UpToDate(legs, plan, Latest(times))
    ensures Abutting(AfterCalls(legs, plan, times))
  {
    hide UpToDate, Abutting;
    var n := |times| - 1;
    if n > 0 {
      AnyCallsAbut(legs, plan, times[..n]);
      OnlyTheLatestCounts(legs, plan, Latest(times[..n]), times[n]);
    }
    UpToDateAbuts(legs, plan, Latest(times));
  }

  lemma UpToDateTarget(legs: seq<Leg>, plan: Option<Plan>, ts: int)
    requires PositiveLengths(legs, plan) && Running(legs)
    ensures var r := UpToDate(legs, plan, ts); Running(r) && r[|r| - 1].target == legs[|legs| - 1].target
  {
    RolledLast(legs, Due(legs[|legs| - 1], ts));
    hide Due;
  }

  /** Whatever calls there are, the current batch of a tank has the target of its first. */
  lemma {:induction false} TargetStays(legs: seq<Leg>, plan: Option<Plan>, times: seq<int>)
    requires PositiveLengths(legs, plan) && Running(legs)
    ensures var r := AfterCalls(legs, plan, times); r[|r| - 1].target == legs[|legs| - 1].target
  {
    hide UpToDate;
    if times != [] {
      TargetStays(legs, plan, times[..|times| - 1]);
      UpToDateTarget(AfterCalls(legs, plan, times[..|times| - 1]), plan, times[|times| - 1]);
    }
  }
}
