// The Edge's durable queue: numbering on entry, prioritised prefix batches, acknowledgement,
// failure marks and retention purge.

module EdgeBuffer {
  import opened Outcomes
  import opened Sequences

  /** One value on its way to the ledger.  `id` is the number in `<edge id>-<number>`. */
  datatype Item = Item(id: nat, equip: string, key: string, value: real, ts: int, resend: bool)

  datatype Reading = Reading(key: string, value: real)

  /** One device read once. */
  datatype Sample = Sample(equip: string, ts: int, readings: seq<Reading>)

  /** One queue row holds one sample. */
  datatype Row = Row(id: nat, priority: int, created: int, attempts: nat, buffered: bool, items: seq<Item>)

  // ---------- the table order of SELECT ... ORDER BY priority, id ----------

  predicate Before(a: Row, b: Row) {
    a.priority < b.priority || (a.priority == b.priority && a.id < b.id)
  }

  function Insert(r: Row, s: seq<Row>): seq<Row> {
    if s == [] || Before(r, s[0]) then [r] + s else [s[0]] + Insert(r, s[1..])
  }

  function Ordered(rows: seq<Row>): seq<Row> {
    if rows == [] then [] else Insert(rows[|rows| - 1], Ordered(rows[..|rows| - 1]))
  }

  ghost predicate Sorted(s: seq<Row>) {
    forall i, j :: 0 <= i < j < |s| ==> Before(s[i], s[j])
  }

  ghost predicate DistinctRows(s: seq<Row>) {
    forall i, j :: 0 <= i < j < |s| ==> s[i].id != s[j].id
  }

  lemma {:induction false} InsertMembers(r: Row, s: seq<Row>)
    ensures |Insert(r, s)| == |s| + 1
    ensures forall x :: x in Insert(r, s) <==> x == r || x in s
  {
    if s != [] && !Before(r, s[0]) {
      InsertMembers(r, s[1..]);
      assert s == [s[0]] + s[1..];
    }
  }

  lemma {:induction false} InsertSorted(r: Row, s: seq<Row>)
    requires Sorted(s) && forall x :: x in s ==> x.id != r.id
    ensures Sorted(Insert(r, s))
  {
    if s != [] && !Before(r, s[0]) {
      InsertSorted(r, s[1..]);
      InsertMembers(r, s[1..]);
      var t := Insert(r, s[1..]);
      forall j | 0 <= j < |t|
        ensures Before(s[0], t[j])
      {
        assert t[j] in t;
        if t[j] in s[1..] {
          var k :| 0 <= k < |s[1..]| && s[1..][k] == t[j];
          assert s[k + 1] == t[j];
        } else {
          assert s[0] in s;
        }
      }
    }
  }

  /** The SELECT returns every row once, by priority and then in order of arrival. */
  lemma {:induction false} OrderedIsSorted(rows: seq<Row>)
    requires DistinctRows(rows)
    ensures Sorted(Ordered(rows)) && |Ordered(rows)| == |rows|
    ensures forall x :: x in Ordered(rows) <==> x in rows
  {
    if rows != [] {
      var n := |rows| - 1;
      OrderedIsSorted(rows[..n]);
      InsertMembers(rows[n], Ordered(rows[..n]));
      assert rows == rows[..n] + [rows[n]];
      InsertSorted(rows[n], Ordered(rows[..n]));
    }
  }

  // ---------- batches ----------

  function ItemCount(rows: seq<Row>): nat {
    if rows == [] then 0 else ItemCount(rows[..|rows| - 1]) + |rows[|rows| - 1].items|
  }

  /** LIMIT max; SQLite reads a negative limit as none. */
  function Limited(s: seq<Row>, max: int): seq<Row> {
    if 0 <= max < |s| then s[..max] else s
  }

  /** The longest prefix that fits, but never empty while there is a row. */
  ghost predicate IsGreedyPrefix(s: seq<Row>, k: nat, max: int) {
    && k <= |s|
    && (k >= 2 ==> ItemCount(s[..k]) <= max)
    && (k < |s| ==> k >= 1 && ItemCount(s[..k + 1]) > max)
  }

  function GreedyLength(s: seq<Row>, k: nat, total: nat, max: int): nat
    requires k <= |s|
    decreases |s| - k
  {
    if k == |s| || (k > 0 && total + |s[k].items| > max) then k
    else GreedyLength(s, k + 1, total + |s[k].items|, max)
  }

  function Batch(rows: seq<Row>, max: int): seq<Row> {
    var s := Limited(Ordered(rows), max);
    var k := GreedyLength(s, 0, 0, max);
    if k <= |s| then s[..k] else s
  }

  lemma {:induction false} GreedyLengthIsGreedy(s: seq<Row>, k: nat, total: nat, max: int)
    requires k <= |s| && total == ItemCount(s[..k]) && (k >= 2 ==> total <= max)
    ensures IsGreedyPrefix(s, GreedyLength(s, k, total, max), max)
    decreases |s| - k
  {
    if k < |s| {
      assert s[..k + 1][..k] == s[..k];
      if k == 0 || total + |s[k].items| <= max {
        GreedyLengthIsGreedy(s, k + 1, total + |s[k].items|, max);
      }
    }
  }

  lemma {:induction false} ItemCountMonotone(s: seq<Row>, j: nat, k: nat)
    requires j <= k <= |s|
    ensures ItemCount(s[..j]) <= ItemCount(s[..k])
    decreases k
  {
    if j < k {
      assert s[..k][..k - 1] == s[..k - 1];
      ItemCountMonotone(s, j, k - 1);
    }
  }

  lemma GreedyPrefixUnique(s: seq<Row>, j: nat, k: nat, max: int)
    requires IsGreedyPrefix(s, j, max) && IsGreedyPrefix(s, k, max)
    ensures j == k
  {
    if j < k { ItemCountMonotone(s, j + 1, k); }
    if k < j { ItemCountMonotone(s, k + 1, j); }
  }

  lemma {:induction false} RowsCountItems(s: seq<Row>, k: nat)
    requires k <= |s| && forall r :: r in s ==> r.items != []
    ensures ItemCount(s[..k]) >= k
  {
    if k > 0 {
      assert s[..k][..k - 1] == s[..k - 1] && s[k - 1] in s;
      RowsCountItems(s, k - 1);
    }
  }

  /** Rows are never empty, so for a positive limit the LIMIT of the SELECT never shortens the batch:
      it is the greedy prefix of the whole queue. */
  lemma LimitNeverCutsTheBatch(rows: seq<Row>, max: int)
    requires max >= 1 && DistinctRows(rows) && forall r :: r in rows ==> r.items != []
    ensures var all := Ordered(rows);
            IsGreedyPrefix(all, |Batch(rows, max)|, max) && Batch(rows, max) == all[..|Batch(rows, max)|]
  {
    hide Ordered;
    var all := Ordered(rows);
    var s := Limited(all, max);
    OrderedIsSorted(rows);
    assert s[..0] == [];
    GreedyLengthIsGreedy(s, 0, 0, max);
    LimitedGreedy(all, |Batch(rows, max)|, max);
  }

  lemma LimitedGreedy(all: seq<Row>, k: nat, max: int)
    requires max >= 1 && forall r :: r in all ==> r.items != []
    requires IsGreedyPrefix(Limited(all, max), k, max)
    ensures IsGreedyPrefix(all, k, max) && Limited(all, max)[..k] == all[..k]
  {
    var s := Limited(all, max);
    if s != all {
      assert s[..k] == all[..k];
      if k == |s| {
        assert all[..k + 1][..k] == all[..k] && all[k] in all;
        RowsCountItems(all, k);
      } else {
        assert s[..k + 1] == all[..k + 1];
      }
    }
  }

  // ---------- what goes on the wire ----------

  function Flag(r: Row): bool {
    r.attempts > 0 || r.buffered
  }

  function Flagged(r: Row): (items: seq<Item>)
    ensures |items| == |r.items|
    ensures forall i :: 0 <= i < |items| ==> items[i] == r.items[i].(resend := Flag(r))
  {
    seq(|r.items|, i requires 0 <= i < |r.items| => r.items[i].(resend := Flag(r)))
  }

  function Payload(batch: seq<Row>): seq<Item> {
    if batch == [] then [] else Payload(batch[..|batch| - 1]) + Flagged(batch[|batch| - 1])
  }

  function ResentCount(batch: seq<Row>): nat {
    if batch == [] then 0
    else ResentCount(batch[..|batch| - 1]) + (if Flag(batch[|batch| - 1]) then |batch[|batch| - 1].items| else 0)
  }

  /** The first half of a turn of the sender loop. */
  method PrepareRequest(batch: seq<Row>) returns (items: seq<Item>, resent: nat)
    ensures items == Payload(batch) && resent == ResentCount(batch) <= |items|
  {
    items, resent := [], 0;
    for m := 0 to |batch|
      invariant items == Payload(batch[..m]) && resent == ResentCount(batch[..m]) <= |items|
    {
      assert batch[..m + 1][..m] == batch[..m];
      var row := batch[m];
      var flag := row.attempts > 0 || row.buffered;
      var its: seq<Item> := [];
      for i := 0 to |row.items|
        invariant its == Flagged(row)[..i]
      {
        its := its + [row.items[i].(resend := flag)];
      }
      resent := resent + (if flag then |its| else 0);
      items := items + its;
    }
    assert batch[..|batch|] == batch;
  }

  // ---------- from samples to items ----------

  function ToRawItems(s: Sample): (items: seq<Item>)
    ensures |items| == |s.readings|
    ensures forall i :: 0 <= i < |items| ==>
                          items[i] == Item(0, s.equip, s.readings[i].key, s.readings[i].value, s.ts, false)
  {
    seq(|s.readings|, i requires 0 <= i < |s.readings| =>
        Item(0, s.equip, s.readings[i].key, s.readings[i].value, s.ts, false))
  }

  function Numbered(items: seq<Item>, first: nat): (numbered: seq<Item>)
    ensures |numbered| == |items|
    ensures forall i :: 0 <= i < |items| ==> numbered[i] == items[i].(id := first + i)
  {
    seq(|items|, i requires 0 <= i < |items| => items[i].(id := first + i))
  }

  // ---------- the queue as a value ----------

  datatype Queue = Queue(rows: seq<Row>, nextRow: nat, seqNo: nat, sent: nat, resent: nat, purged: nat)

  const EMPTY := Queue([], 1, 0, 0, 0, 0)

  function Enqueued(q: Queue, items: seq<Item>, priority: int, buffered: bool, now: int): Queue {
    if items == [] then q
    else q.(rows := q.rows + [Row(q.nextRow, priority, now, 0, buffered, Numbered(items, q.seqNo + 1))],
            nextRow := q.nextRow + 1, seqNo := q.seqNo + |items|)
  }

  function RowIds(rows: seq<Row>): (ids: seq<nat>)
    ensures |ids| == |rows| && forall i :: 0 <= i < |rows| ==> ids[i] == rows[i].id
  {
    seq(|rows|, i requires 0 <= i < |rows| => rows[i].id)
  }

  function Acked(q: Queue, ids: seq<nat>, n: nat, resent: nat): Queue {
    q.(rows := Filter(q.rows, (r: Row) => r.id !in ids), sent := q.sent + n, resent := q.resent + resent)
  }

  function Marked(rows: seq<Row>): (marked: seq<Row>)
    ensures |marked| == |rows|
    ensures forall i :: 0 <= i < |rows| ==> marked[i] == rows[i].(attempts := rows[i].attempts + 1, buffered := true)
  {
    seq(|rows|, i requires 0 <= i < |rows| => rows[i].(attempts := rows[i].attempts + 1, buffered := true))
  }

  function Old(rows: seq<Row>, cut: int): seq<Row> {
    Filter(rows, (r: Row) => r.created < cut)
  }

  function Purged(q: Queue, cut: int): Queue {
    if ItemCount(Old(q.rows, cut)) == 0 then q
    else q.(rows := Filter(q.rows, (r: Row) => r.created >= cut), purged := q.purged + ItemCount(Old(q.rows, cut)))
  }

  /** Since no row is empty, the purge deletes exactly the old rows. */
  lemma PurgeDeletesTheOld(q: Queue, cut: int)
    requires forall r :: r in q.rows ==> r.items != []
    ensures Purged(q, cut).rows == Filter(q.rows, (r: Row) => r.created >= cut)
  {
    var old_ := Old(q.rows, cut);
    if ItemCount(old_) == 0 {
      RowsCountItems(old_, |old_|);
      assert old_[..|old_|] == old_;
      forall r | r in q.rows
        ensures r.created >= cut
      {
        assert r.created < cut ==> r in old_;
      }
      FilterAll(q.rows, (r: Row) => r.created >= cut);
    }
  }

  // ---------- the queue as the object the Edge keeps ----------

  class Buffer {
    var rows: seq<Row>
    var nextRow: nat
    var seqNo: nat
    var sent: nat
    var resent: nat
    var purged: nat

    function State(): Queue
      reads this
    {
      Queue(rows, nextRow, seqNo, sent, resent, purged)
    }

    /** Opens the database file as it was left. */
    constructor (stored: Queue)
      ensures State() == stored
    {
      rows, nextRow, seqNo := stored.rows, stored.nextRow, stored.seqNo;
      sent, resent, purged := stored.sent, stored.resent, stored.purged;
    }

    method Enqueue(items: seq<Item>, priority: int, buffered: bool, now: int) returns (ids: seq<nat>)
      modifies this
      ensures State() == Enqueued(old(State()), items, priority, buffered, now)
      ensures |ids| == |items| && forall i :: 0 <= i < |ids| ==> ids[i] == old(seqNo) + 1 + i
    {
      ids := [];
      if items == [] { return; }
      seqNo := seqNo + |items|;
      var start := seqNo - |items| + 1;
      var numbered: seq<Item> := [];
      for i := 0 to |items|
        invariant numbered == Numbered(items, start)[..i]
        invariant |ids| == i && forall j :: 0 <= j < i ==> ids[j] == start + j
      {
        numbered := numbered + [items[i].(id := start + i)];
        ids := ids + [start + i];
      }
      assert numbered == Numbered(items, start);
      rows := rows + [Row(nextRow, priority, now, 0, buffered, numbered)];
      nextRow := nextRow + 1;
    }

    method NextBatch(max: int) returns (batch: seq<Row>)
      ensures batch == Batch(rows, max)
      ensures var s := Limited(Ordered(rows), max);
              |batch| <= |s| && batch == s[..|batch|] && IsGreedyPrefix(s, |batch|, max)
    {
      var s := Limited(Ordered(rows), max);
      batch := [];
      var total := 0;
      var k := 0;
      while k < |s|
        invariant k == |batch| <= |s| && batch == s[..k]
        invariant total == ItemCount(s[..k]) && (k >= 2 ==> total <= max)
      {
        if batch != [] && total + |s[k].items| > max { break; }
        assert s[..k + 1][..k] == s[..k];
        batch := batch + [s[k]];
        total := total + |s[k].items|;
        k := k + 1;
      }
      assert k < |s| ==> s[..k + 1][..k] == s[..k];
      assert s[..0] == [];
      GreedyLengthIsGreedy(s, 0, 0, max);
      GreedyPrefixUnique(s, k, GreedyLength(s, 0, 0, max), max);
    }

    method Ack(ids: seq<nat>, n: nat, again: nat)
      modifies this
      ensures State() == Acked(old(State()), ids, n, again)
    {
      rows := Filter(rows, (r: Row) => r.id !in ids);
      sent := sent + n;
      if again > 0 { resent := resent + again; }
    }

    method MarkFailedAll()
      modifies this
      ensures State() == old(State()).(rows := Marked(old(rows)))
    {
      rows := Marked(rows);
    }

    method Purge(cut: int) returns (n: nat)
      modifies this
      ensures n == ItemCount(Old(old(rows), cut))
      ensures State() == Purged(old(State()), cut)
    {
      n := ItemCount(Old(rows, cut));
      if n > 0 {
        rows := Filter(rows, (r: Row) => r.created >= cut);
        purged := purged + n;
      }
    }

    /** Pending samples and items, when the oldest of them was stored, and the persistent counters. */
    method Stats() returns (pendingSamples: nat, pendingItems: nat, oldest: Option<int>, counters: (nat, nat, nat, nat))
      ensures pendingSamples == |rows| && pendingItems == ItemCount(rows)
      ensures oldest.None? <==> rows == []
      ensures oldest.Some? ==> forall i :: 0 <= i < |rows| ==> oldest.value <= rows[i].created
      ensures oldest.Some? ==> exists i :: 0 <= i < |rows| && rows[i].created == oldest.value
      ensures counters == (sent, resent, purged, seqNo)
    {
      pendingSamples, pendingItems, oldest := |rows|, 0, None;
      for i := 0 to |rows|
        invariant pendingItems == ItemCount(rows[..i])
        invariant oldest.None? <==> i == 0
        invariant oldest.Some? ==> forall j :: 0 <= j < i ==> oldest.value <= rows[j].created
        invariant oldest.Some? ==> exists j :: 0 <= j < i && rows[j].created == oldest.value
      {
        assert rows[..i + 1][..i] == rows[..i];
        pendingItems := pendingItems + |rows[i].items|;
        if oldest.None? || rows[i].created < oldest.value { oldest := Some(rows[i].created); }
      }
      assert rows[..|rows|] == rows;
      counters := (sent, resent, purged, seqNo);
    }
  }
}
