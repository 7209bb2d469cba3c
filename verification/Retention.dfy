// The daily purge of the MES: twelve deletes, in an order that never leaves a row without the parent it
// refers to.

module Retention {
  import opened Outcomes
  import opened Sequences
  import Alarms
  import EdgeBuffer
  import RunLog
  import TankBatches

  datatype EnvLog = EnvLog(id: nat, ts: int)
  datatype EnvAlarm = EnvAlarm(log: nat, ts: int)
  datatype Salinity = Salinity(batch: nat, ts: int)

  /** A row of a table that refers to nothing and that nothing refers to. */
  datatype Plain = Plain(id: nat, ts: int)

  datatype Db = Db(envAlarms: seq<EnvAlarm>, envLogs: seq<EnvLog>, salinity: seq<Salinity>, batches: seq<TankBatches.Batch>,
                   sanitizer: seq<Plain>, metal: seq<Plain>, taping: seq<Plain>, weight: seq<Plain>, filler: seq<Plain>,
                   runs: seq<RunLog.Row>, alarms: seq<Alarms.Alarm>, raw: seq<EdgeBuffer.Item>)

  const STEPS := 12

  // ---------- the deletes, one by one ----------

  predicate AlarmsRefer(envAlarms: seq<EnvAlarm>, id: nat) {
    exists i :: 0 <= i < |envAlarms| && envAlarms[i].log == id
  }

  predicate SalinityRefers(salinity: seq<Salinity>, id: nat) {
    exists i :: 0 <= i < |salinity| && salinity[i].batch == id
  }

  predicate Finished(b: TankBatches.Batch, cutoff: int) {
    !b.open && b.end.Some? && b.end.value < cutoff
  }

  function KeepPlain(rows: seq<Plain>, cutoff: int): (r: seq<Plain>) {
    Filter(rows, (x: Plain) => x.ts >= cutoff)
  }

  function DeleteStep(db: Db, cutoff: int, n: nat): Db
    requires n < STEPS
  {
    match n
    case 0 => db.(envAlarms := Filter(db.envAlarms, (x: EnvAlarm) => x.ts >= cutoff))
    case 1 => db.(envLogs := Filter(db.envLogs, (x: EnvLog) => x.ts >= cutoff || AlarmsRefer(db.envAlarms, x.id)))
    case 2 => db.(salinity := Filter(db.salinity, (x: Salinity) => x.ts >= cutoff))
    case 3 => db.(batches := Filter(db.batches, (x: TankBatches.Batch) => !Finished(x, cutoff) || SalinityRefers(db.salinity, x.id)))
    case 4 => db.(sanitizer := KeepPlain(db.sanitizer, cutoff))
    case 5 => db.(metal := KeepPlain(db.metal, cutoff))
    case 6 => db.(taping := KeepPlain(db.taping, cutoff))
    case 7 => db.(weight := KeepPlain(db.weight, cutoff))
    case 8 => db.(filler := KeepPlain(db.filler, cutoff))
    case 9 => db.(runs := Filter(db.runs, (x: RunLog.Row) => !RunLog.Expired(x.end, cutoff)))
    case 10 => db.(alarms := Filter(db.alarms, (x: Alarms.Alarm) => !Alarms.Expired(x, cutoff)))
    case _ => db.(raw := Filter(db.raw, (x: EdgeBuffer.Item) => x.ts >= cutoff))
  }

  function After(db: Db, cutoff: int, n: nat): Db
    requires n <= STEPS
  {
    if n == 0 then db else DeleteStep(After(db, cutoff, n - 1), cutoff, n - 1)
  }

  function Rows(db: Db): nat {
    |db.envAlarms| + |db.envLogs| + |db.salinity| + |db.batches| + |db.sanitizer| + |db.metal| + |db.taping| + |db.weight|
    + |db.filler| + |db.runs| + |db.alarms| + |db.raw|
  }

  /** How many rows the table of a delete holds. */
  function Size(db: Db, n: nat): nat
    requires n < STEPS
  {
    match n
    case 0 => |db.envAlarms|
    case 1 => |db.envLogs|
    case 2 => |db.salinity|
    case 3 => |db.batches|
    case 4 => |db.sanitizer|
    case 5 => |db.metal|
    case 6 => |db.taping|
    case 7 => |db.weight|
    case 8 => |db.filler|
    case 9 => |db.runs|
    case 10 => |db.alarms|
    case _ => |db.raw|
  }

  /** How many rows a delete of the purge takes. */
  function Count(db: Db, cutoff: int, n: nat): int
    requires n < STEPS
  {
    Rows(After(db, cutoff, n)) - Rows(After(db, cutoff, n + 1))
  }

  // ---------- the purge as a whole ----------

  /** What each table keeps, said for all tables at once. */
  function Purged(db: Db, cutoff: int): Db {
    var envAlarms := Filter(db.envAlarms, (x: EnvAlarm) => x.ts >= cutoff);
    var salinity := Filter(db.salinity, (x: Salinity) => x.ts >= cutoff);
    Db(envAlarms,
       Filter(db.envLogs, (x: EnvLog) => x.ts >= cutoff || AlarmsRefer(envAlarms, x.id)),
       salinity,
       Filter(db.batches, (x: TankBatches.Batch) => !Finished(x, cutoff) || SalinityRefers(salinity, x.id)),
       KeepPlain(db.sanitizer, cutoff), KeepPlain(db.metal, cutoff), KeepPlain(db.taping, cutoff),
       KeepPlain(db.weight, cutoff), KeepPlain(db.filler, cutoff),
       Filter(db.runs, (x: RunLog.Row) => !RunLog.Expired(x.end, cutoff)),
       Filter(db.alarms, (x: Alarms.Alarm) => !Alarms.Expired(x, cutoff)),
       Filter(db.raw, (x: EdgeBuffer.Item) => x.ts >= cutoff))
  }

  lemma StepsMakeThePurge(db: Db, cutoff: int)
    ensures After(db, cutoff, STEPS) == Purged(db, cutoff)
  {
    hide Filter, AlarmsRefer, SalinityRefers, Finished, KeepPlain;
    var d := After(db, cutoff, 4);
    assert d == DeleteStep(DeleteStep(DeleteStep(DeleteStep(db, cutoff, 0), cutoff, 1), cutoff, 2), cutoff, 3) by {
      FourSteps(db, cutoff, 0);
    }
    FourSteps(db, cutoff, 4);
    FourSteps(db, cutoff, 8);
  }

  lemma FourSteps(db: Db, cutoff: int, n: nat)
    requires n + 4 <= STEPS
    ensures After(db, cutoff, n + 4) ==
            DeleteStep(DeleteStep(DeleteStep(DeleteStep(After(db, cutoff, n), cutoff, n), cutoff, n + 1), cutoff, n + 2),
                       cutoff, n + 3)
  {
    hide DeleteStep;
    assert After(db, cutoff, n + 1) == DeleteStep(After(db, cutoff, n), cutoff, n);
    assert After(db, cutoff, n + 2) == DeleteStep(After(db, cutoff, n + 1), cutoff, n + 1);
    assert After(db, cutoff, n + 3) == DeleteStep(After(db, cutoff, n + 2), cutoff, n + 2);
    assert After(db, cutoff, n + 4) == DeleteStep(After(db, cutoff, n + 3), cutoff, n + 3);
  }

  class Store {
    var db: Db

    constructor (db: Db)
      ensures this.db == db
    {
      this.db := db;
    }

    /** `purge`: runs the deletes in order and counts what each one deleted. */
    method Purge(cutoff: int) returns (deleted: seq<nat>, total: nat)
      modifies this
      ensures db == Purged(old(db), cutoff)
      ensures |deleted| == STEPS
      ensures forall n :: 0 <= n < STEPS ==> deleted[n] == Count(old(db), cutoff, n)
      ensures total == Rows(old(db)) - Rows(db)
    {
      hide DeleteStep, Rows, Purged;
      deleted, total := [], 0;
      ghost var before := db;
      for n := 0 to STEPS
        invariant db == After(before, cutoff, n) && |deleted| == n
        invariant total == Rows(before) - Rows(db)
        invariant forall m :: 0 <= m < n ==> deleted[m] == Count(before, cutoff, m)
      {
        StepShrinks(db, cutoff, n);
        var next := DeleteStep(db, cutoff, n);
        var count := Rows(db) - Rows(next);
        deleted := deleted + [count];
        total := total + count;
        db := next;
      }
      StepsMakeThePurge(before, cutoff);
    }
  }

  lemma StepShrinks(db: Db, cutoff: int, n: nat)
    requires n < STEPS
    ensures Rows(DeleteStep(db, cutoff, n)) <= Rows(db)
  {
    hide AlarmsRefer, SalinityRefers, Finished;
  }

  // ---------- references ----------

  predicate HasLog(envLogs: seq<EnvLog>, id: nat) {
    exists i :: 0 <= i < |envLogs| && envLogs[i].id == id
  }

  predicate HasBatch(batches: seq<TankBatches.Batch>, id: nat) {
    exists i :: 0 <= i < |batches| && batches[i].id == id
  }

  /** Every child row has its parent. */
  ghost predicate RefsOk(db: Db) {
    && (forall i :: 0 <= i < |db.envAlarms| ==> HasLog(db.envLogs, db.envAlarms[i].log))
    && (forall i :: 0 <= i < |db.salinity| ==> HasBatch(db.batches, db.salinity[i].batch))
  }

  /** No delete, in the order they run, leaves a child without its parent: not even in between. */
  lemma {:induction false} RefsHoldThroughout(db: Db, cutoff: int, n: nat)
    requires RefsOk(db) && n <= STEPS
    ensures RefsOk(After(db, cutoff, n))
  {
    if n > 0 {
      RefsHoldThroughout(db, cutoff, n - 1);
      hide RefsOk;
      StepKeepsRefs(After(db, cutoff, n - 1), cutoff, n - 1);
    }
  }

  lemma StepKeepsRefs(db: Db, cutoff: int, n: nat)
    requires RefsOk(db) && n < STEPS
    ensures RefsOk(DeleteStep(db, cutoff, n))
  {
    var next := DeleteStep(db, cutoff, n);
    if n == 1 {
      forall i | 0 <= i < |db.envAlarms|
        ensures HasLog(next.envLogs, db.envAlarms[i].log)
      {
        ParentLogStays(db, cutoff, i);
      }
    } else if n == 3 {
      forall i | 0 <= i < |db.salinity|
        ensures HasBatch(next.batches, db.salinity[i].batch)
      {
        ParentBatchStays(db, cutoff, i);
      }
    }
    hide HasLog, HasBatch, AlarmsRefer, SalinityRefers;
    assert forall i :: 0 <= i < |next.envAlarms| ==> next.envAlarms[i] in next.envAlarms;
    assert forall i :: 0 <= i < |next.salinity| ==> next.salinity[i] in next.salinity;
  }

  lemma ParentLogStays(db: Db, cutoff: int, i: nat)
    requires RefsOk(db) && i < |db.envAlarms|
    ensures HasLog(DeleteStep(db, cutoff, 1).envLogs, db.envAlarms[i].log)
  {
    var next := DeleteStep(db, cutoff, 1).envLogs;
    var j :| 0 <= j < |db.envLogs| && db.envLogs[j].id == db.envAlarms[i].log;
    assert AlarmsRefer(db.envAlarms, db.envLogs[j].id);
    assert db.envLogs[j] in next;
    var k :| 0 <= k < |next| && next[k] == db.envLogs[j];
  }

  lemma ParentBatchStays(db: Db, cutoff: int, i: nat)
    requires RefsOk(db) && i < |db.salinity|
    ensures HasBatch(DeleteStep(db, cutoff, 3).batches, db.salinity[i].batch)
  {
    var next := DeleteStep(db, cutoff, 3).batches;
    var j :| 0 <= j < |db.batches| && db.batches[j].id == db.salinity[i].batch;
    assert SalinityRefers(db.salinity, db.batches[j].id);
    assert db.batches[j] in next;
    var k :| 0 <= k < |next| && next[k] == db.batches[j];
  }

  // ---------- what stays ----------

  /** Current batches, open run intervals and alarms not yet cleared outlive every purge, and so does
      every row of every table that is not older than the cutoff. */
  lemma LiveRowsStay(db: Db, cutoff: int)
    ensures var r := Purged(db, cutoff);
            && (forall b :: b in db.batches && (b.open || b.end.None? || b.end.value >= cutoff) ==> b in r.batches)
            && (forall x :: x in db.runs && (x.end.None? || x.end.value >= cutoff) ==> x in r.runs)
            && (forall a :: a in db.alarms && (a.status != Alarms.Cleared || a.cleared.None? || a.cleared.value >= cutoff) ==>
                              a in r.alarms)
            && (forall x :: x in db.envLogs && x.ts >= cutoff ==> x in r.envLogs)
            && (forall x :: x in db.envAlarms && x.ts >= cutoff ==> x in r.envAlarms)
            && (forall x :: x in db.salinity && x.ts >= cutoff ==> x in r.salinity)
            && PlainStays(db.sanitizer, r.sanitizer, cutoff) && PlainStays(db.metal, r.metal, cutoff)
            && PlainStays(db.taping, r.taping, cutoff) && PlainStays(db.weight, r.weight, cutoff)
            && PlainStays(db.filler, r.filler, cutoff)
            && (forall x :: x in db.raw && x.ts >= cutoff ==> x in r.raw)
  {
    hide AlarmsRefer, SalinityRefers;
  }

  ghost predicate PlainStays(rows: seq<Plain>, more: seq<Plain>, cutoff: int) {
    forall x :: x in rows && x.ts >= cutoff ==> x in more
  }

  /** What is deleted is old: a finished batch without salinity rows, a closed interval, a cleared alarm or an
      environment log without alarm rows that ended before the cutoff, or any other row older than it. */
  lemma OldRowsGo(db: Db, cutoff: int)
    ensures var r := Purged(db, cutoff);
            && (forall b :: b in r.batches ==> b in db.batches && (!Finished(b, cutoff) || SalinityRefers(r.salinity, b.id)))
            && (forall x :: x in r.runs ==> x in db.runs && !(x.end.Some? && x.end.value < cutoff))
            && (forall a :: a in r.alarms ==> a in db.alarms && (a.status == Alarms.Cleared && a.cleared.Some? ==> a.cleared.value >= cutoff))
            && (forall x :: x in r.envLogs ==> x in db.envLogs && (x.ts >= cutoff || AlarmsRefer(r.envAlarms, x.id)))
            && (forall x :: x in r.envAlarms ==> x.ts >= cutoff) && (forall x :: x in r.salinity ==> x.ts >= cutoff)
            && (forall x :: x in r.sanitizer + r.metal + r.taping + r.weight + r.filler ==> x.ts >= cutoff)
            && (forall x :: x in r.raw ==> x in db.raw && x.ts >= cutoff)
  {
    hide AlarmsRefer, SalinityRefers;
  }

  // ---------- purge after purge ----------

  lemma PlainTwice(rows: seq<Plain>, first: int, second: int)
    requires first <= second
    ensures KeepPlain(KeepPlain(rows, first), second) == KeepPlain(rows, second)
  {
    FilterWeakerFirst(rows, (x: Plain) => x.ts >= first, (x: Plain) => x.ts >= second);
  }

  lemma EnvAlarmsTwice(rows: seq<EnvAlarm>, first: int, second: int)
    requires first <= second
    ensures Filter(Filter(rows, (x: EnvAlarm) => x.ts >= first), (x: EnvAlarm) => x.ts >= second) ==
            Filter(rows, (x: EnvAlarm) => x.ts >= second)
  {
    FilterWeakerFirst(rows, (x: EnvAlarm) => x.ts >= first, (x: EnvAlarm) => x.ts >= second);
  }

  lemma SalinityTwice(rows: seq<Salinity>, first: int, second: int)
    requires first <= second
    ensures Filter(Filter(rows, (x: Salinity) => x.ts >= first), (x: Salinity) => x.ts >= second) ==
            Filter(rows, (x: Salinity) => x.ts >= second)
  {
    FilterWeakerFirst(rows, (x: Salinity) => x.ts >= first, (x: Salinity) => x.ts >= second);
  }

  lemma RefersSubset(few: seq<EnvAlarm>, many: seq<EnvAlarm>, id: nat)
    requires (forall x :: x in few ==> x in many) && AlarmsRefer(few, id)
    ensures AlarmsRefer(many, id)
  {
    var i :| 0 <= i < |few| && few[i].log == id;
    assert few[i] in few;
    var j :| 0 <= j < |many| && many[j] == few[i];
  }

  lemma SalinitySubset(few: seq<Salinity>, many: seq<Salinity>, id: nat)
    requires (forall x :: x in few ==> x in many) && SalinityRefers(few, id)
    ensures SalinityRefers(many, id)
  {
    var i :| 0 <= i < |few| && few[i].batch == id;
    assert few[i] in few;
    var j :| 0 <= j < |many| && many[j] == few[i];
  }

  lemma EnvLogsTwice(rows: seq<EnvLog>, few: seq<EnvAlarm>, many: seq<EnvAlarm>, first: int, second: int)
    requires first <= second && forall x :: x in few ==> x in many
    ensures Filter(Filter(rows, (x: EnvLog) => x.ts >= first || AlarmsRefer(many, x.id)),
                   (x: EnvLog) => x.ts >= second || AlarmsRefer(few, x.id)) ==
            Filter(rows, (x: EnvLog) => x.ts >= second || AlarmsRefer(few, x.id))
  {
    hide AlarmsRefer;
    var p, q := (x: EnvLog) => x.ts >= first || AlarmsRefer(many, x.id), (x: EnvLog) => x.ts >= second || AlarmsRefer(few, x.id);
    forall x: EnvLog | q(x)
      ensures p(x)
    {
      if x.ts < second { RefersSubset(few, many, x.id); }
    }
    FilterWeakerFirst(rows, p, q);
  }

  lemma BatchesTwice(rows: seq<TankBatches.Batch>, few: seq<Salinity>, many: seq<Salinity>, first: int, second: int)
    requires first <= second && forall x :: x in few ==> x in many
    ensures Filter(Filter(rows, (x: TankBatches.Batch) => !Finished(x, first) || SalinityRefers(many, x.id)),
                   (x: TankBatches.Batch) => !Finished(x, second) || SalinityRefers(few, x.id)) ==
            Filter(rows, (x: TankBatches.Batch) => !Finished(x, second) || SalinityRefers(few, x.id))
  {
    hide SalinityRefers;
    var p := (x: TankBatches.Batch) => !Finished(x, first) || SalinityRefers(many, x.id);
    var q := (x: TankBatches.Batch) => !Finished(x, second) || SalinityRefers(few, x.id);
    forall x: TankBatches.Batch | q(x)
      ensures p(x)
    {
      if Finished(x, second) { SalinitySubset(few, many, x.id); }
    }
    FilterWeakerFirst(rows, p, q);
  }

  lemma RunsTwice(rows: seq<RunLog.Row>, first: int, second: int)
    requires first <= second
    ensures Filter(Filter(rows, (x: RunLog.Row) => !RunLog.Expired(x.end, first)), (x: RunLog.Row) => !RunLog.Expired(x.end, second)) ==
            Filter(rows, (x: RunLog.Row) => !RunLog.Expired(x.end, second))
  {
    var p, q := (x: RunLog.Row) => !RunLog.Expired(x.end, first), (x: RunLog.Row) => !RunLog.Expired(x.end, second);
    FilterWeakerFirst(rows, p, q);
  }

  lemma AlarmsTwice(rows: seq<Alarms.Alarm>, first: int, second: int)
    requires first <= second
    ensures Filter(Filter(rows, (x: Alarms.Alarm) => !Alarms.Expired(x, first)), (x: Alarms.Alarm) => !Alarms.Expired(x, second)) ==
            Filter(rows, (x: Alarms.Alarm) => !Alarms.Expired(x, second))
  {
    var p, q := (x: Alarms.Alarm) => !Alarms.Expired(x, first), (x: Alarms.Alarm) => !Alarms.Expired(x, second);
    FilterWeakerFirst(rows, p, q);
  }

  lemma RawTwice(rows: seq<EdgeBuffer.Item>, first: int, second: int)
    requires first <= second
    ensures Filter(Filter(rows, (x: EdgeBuffer.Item) => x.ts >= first), (x: EdgeBuffer.Item) => x.ts >= second) ==
            Filter(rows, (x: EdgeBuffer.Item) => x.ts >= second)
  {
    var p, q := (x: EdgeBuffer.Item) => x.ts >= first, (x: EdgeBuffer.Item) => x.ts >= second;
    FilterWeakerFirst(rows, p, q);
  }

  /** Purging at one cutoff and then at a later one is purging at the later one. */
  lemma PurgesCompose(db: Db, first: int, second: int)
    requires first <= second
    ensures Purged(Purged(db, first), second) == Purged(db, second)
  {
    var one := Purged(db, first);
    EnvAlarmsTwice(db.envAlarms, first, second);
    SalinityTwice(db.salinity, first, second);
    EnvLogsTwice(db.envLogs, Filter(db.envAlarms, (x: EnvAlarm) => x.ts >= second), one.envAlarms, first, second);
    BatchesTwice(db.batches, Filter(db.salinity, (x: Salinity) => x.ts >= second), one.salinity, first, second);
    PlainTwice(db.sanitizer, first, second);
    PlainTwice(db.metal, first, second);
    PlainTwice(db.taping, first, second);
    PlainTwice(db.weight, first, second);
    PlainTwice(db.filler, first, second);
    RunsTwice(db.runs, first, second);
    AlarmsTwice(db.alarms, first, second);
    RawTwice(db.raw, first, second);
    hide Filter, AlarmsRefer, SalinityRefers, Finished, KeepPlain;
  }

  // ---------- the counts, table by table ----------

  lemma StepTouchesOne(db: Db, cutoff: int, n: nat, m: nat)
    requires n < STEPS && m < STEPS
    ensures m != n ==> Size(DeleteStep(db, cutoff, n), m) == Size(db, m)
    ensures Rows(db) - Rows(DeleteStep(db, cutoff, n)) == Size(db, n) - Size(DeleteStep(db, cutoff, n), n)
  {
    hide Filter, AlarmsRefer, SalinityRefers, Finished, KeepPlain;
  }

  lemma {:induction false} SizeAfter(db: Db, cutoff: int, n: nat, m: nat)
    requires n <= STEPS && m < STEPS
    ensures n <= m ==> Size(After(db, cutoff, n), m) == Size(db, m)
    ensures m < n ==> Size(After(db, cutoff, n), m) == Size(After(db, cutoff, m + 1), m)
  {
    hide Size, DeleteStep, Rows;
    if n > 0 {
      SizeAfter(db, cutoff, n - 1, m);
      StepTouchesOne(After(db, cutoff, n - 1), cutoff, n - 1, m);
    }
  }

  /** Each count reported is what the whole purge takes from the table of that delete. */
  lemma CountIsTableLoss(db: Db, cutoff: int, n: nat)
    requires n < STEPS
    ensures Count(db, cutoff, n) == Size(db, n) - Size(Purged(db, cutoff), n)
  {
    hide Size, DeleteStep, Rows, Purged;
    SizeAfter(db, cutoff, n, n);
    SizeAfter(db, cutoff, STEPS, n);
    StepsMakeThePurge(db, cutoff);
    StepTouchesOne(After(db, cutoff, n), cutoff, n, n);
  }

  /** For every table the counts of a purge and of a later one add up to the count of the later one alone;
      and a purge repeated counts nothing. */
  lemma CountsAdd(db: Db, first: int, second: int, n: nat)
    requires first <= second && n < STEPS
    ensures Count(db, first, n) + Count(Purged(db, first), second, n) == Count(db, second, n)
    ensures Count(Purged(db, first), first, n) == 0
  {
    hide Size, Purged, Count;
    PurgesCompose(db, first, second);
    PurgesCompose(db, first, first);
    CountIsTableLoss(db, first, n);
    CountIsTableLoss(Purged(db, first), second, n);
    CountIsTableLoss(db, second, n);
    CountIsTableLoss(Purged(db, first), first, n);
  }
}
