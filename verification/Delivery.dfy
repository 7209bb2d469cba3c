// Store-and-forward delivery as a state machine: the Edge's queue and sender, the wire, and the
// MES ledger.  An `await` is the only point where steps of different tasks interleave, so every
// action below is atomic.
//
// Requests stay on the wire forever: each may be processed never (lost), late (after the client has
// timed out, after later requests, after an Edge restart), or more than once.

module Delivery {
  import opened Outcomes
  import opened Sequences
  import opened EdgeBuffer
  import opened MesLedger

  const URGENT := 0
  const NORMAL := 1

  datatype Config = Config(known: set<string>, batchMax: int)

  datatype Link = Unknown | Up | Down

  datatype Sender = Idle | Waiting(req: nat, batch: seq<Row>)

  /** How message number `item.id` came into being. */
  datatype Birth = Birth(item: Item, row: nat, priority: int, failures: nat, down: bool)

  /** What has happened so far; nothing in the system reads it.
      born: every message numbered, in order; log: every ledger row ever inserted, in order;
      ingests: the same rows, one list per ingest; lost: ids deleted by the Edge's retention purge;
      forgotten: ids deleted by the MES's daily purge; failures: failed sends;
      doubled: messages purged at the Edge while in flight and acknowledged all the same. */
  datatype History = History(born: seq<Birth>, log: seq<Item>, ingests: seq<seq<Item>>, lost: set<nat>,
                             forgotten: set<nat>, failures: nat, doubled: nat)

  datatype State = State(queue: Queue, link: Link, sender: Sender, mdNg: map<string, real>,
                         net: seq<seq<Item>>, answers: map<nat, seq<nat>>, ledger: seq<Item>, hist: History)

  datatype Action =
    | Sampled(sample: Sample, now: int)   // `_on_sample`
    | Send                                // the sender starts a POST
    | LinkFault                           // the sender finds the injected line fault instead
    | Process(req: nat)                   // the MES ingests a request, and answers
    | Acknowledge                         // the answer reaches the sender that waits for it
    | Fail                                // timeout, error status, or no usable answer
    | EdgePurge(cut: int)
    | EdgeRestart                         // a POST in flight is cancelled, not undone
    | MesPurge(cutoff: int)

  const INITIAL := State(EMPTY, Unknown, Idle, map[], [], map[], [], History([], [], [], {}, {}, 0, 0))

  // ---------- the steps ----------

  function Lookup(readings: seq<Reading>, key: string): Option<real> {
    if readings == [] then None
    else if readings[0].key == key then Some(readings[0].value)
    else Lookup(readings[1..], key)
  }

  /** `_priority`: a metal detector whose NG count rose goes first. */
  function Priority(mdNg: map<string, real>, s: Sample): int {
    match Lookup(s.readings, "ng_cnt")
    case None => NORMAL
    case Some(n) => if s.equip in mdNg && n > mdNg[s.equip] then URGENT else NORMAL
  }

  function NoteNg(mdNg: map<string, real>, s: Sample): map<string, real> {
    match Lookup(s.readings, "ng_cnt")
    case None => mdNg
    case Some(n) => mdNg[s.equip := n]
  }

  function Births(items: seq<Item>, row: nat, priority: int, failures: nat, down: bool): (births: seq<Birth>)
    ensures |births| == |items|
    ensures forall i :: 0 <= i < |items| ==> births[i] == Birth(items[i], row, priority, failures, down)
  {
    seq(|items|, i requires 0 <= i < |items| => Birth(items[i], row, priority, failures, down))
  }

  function TakeSample(s: State, sample: Sample, now: int): State {
    if sample.readings == [] then s
    else
      var items := ToRawItems(sample);
      var priority, down := Priority(s.mdNg, sample), s.link == Down;
      s.(queue := Enqueued(s.queue, items, priority, down, now),
         mdNg := NoteNg(s.mdNg, sample),
         hist := s.hist.(born := s.hist.born + Births(Numbered(items, s.queue.seqNo + 1), s.queue.nextRow,
                                                      priority, s.hist.failures, down)))
  }

  function NextBatch(c: Config, s: State): seq<Row> {
    Batch(s.queue.rows, c.batchMax)
  }

  function StartSend(c: Config, s: State): State {
    if s.sender != Idle || NextBatch(c, s) == [] then s
    else s.(net := s.net + [Payload(NextBatch(c, s))], sender := Waiting(|s.net|, NextBatch(c, s)))
  }

  function Failed(s: State): State {
    s.(queue := s.queue.(rows := Marked(s.queue.rows)), link := Down, sender := Idle,
       hist := s.hist.(failures := s.hist.failures + 1))
  }

  function Ingested(c: Config, s: State, req: nat): State
    requires req < |s.net|
  {
    var added := Fresh(Ids(s.ledger), c.known, s.net[req]);
    s.(ledger := s.ledger + added, answers := s.answers[req := MessageIds(s.net[req])],
       hist := s.hist.(log := s.hist.log + added, ingests := s.hist.ingests + [added]))
  }

  predicate AllAccepted(items: seq<Item>, accepted: seq<nat>) {
    forall i :: 0 <= i < |items| ==> items[i].id in accepted
  }

  function Acknowledged(s: State): State {
    if s.sender.Waiting? && s.sender.req in s.answers
       && AllAccepted(Payload(s.sender.batch), s.answers[s.sender.req]) then
      var items := Payload(s.sender.batch);
      s.(queue := Acked(s.queue, RowIds(s.sender.batch), |items|, ResentCount(s.sender.batch)),
         link := Up, sender := Idle,
         hist := s.hist.(doubled := s.hist.doubled + |Ids(items) - PendingIds(s.queue.rows)|))
    else s
  }

  function PurgedAtEdge(s: State, cut: int): State {
    s.(queue := Purged(s.queue, cut), hist := s.hist.(lost := s.hist.lost + PendingIds(Old(s.queue.rows, cut))))
  }

  function PurgedAtMes(s: State, cutoff: int): State {
    s.(ledger := Filter(s.ledger, (x: Item) => x.ts >= cutoff),
       hist := s.hist.(forgotten := s.hist.forgotten + Ids(Filter(s.ledger, (x: Item) => x.ts < cutoff))))
  }

  function Step(c: Config, s: State, a: Action): State {
    match a
    case Sampled(sample, now) => TakeSample(s, sample, now)
    case Send => StartSend(c, s)
    case LinkFault => if s.sender == Idle && NextBatch(c, s) != [] then Failed(s) else s
    case Process(req) => if req < |s.net| then Ingested(c, s, req) else s
    case Acknowledge => Acknowledged(s)
    case Fail => if s.sender.Waiting? then Failed(s) else s
    case EdgePurge(cut) => PurgedAtEdge(s, cut)
    case EdgeRestart => s.(sender := Idle, link := Unknown, mdNg := map[])
    case MesPurge(cutoff) => PurgedAtMes(s, cutoff)
  }

  /** A run is any sequence of actions; one that is not possible in a state does nothing there. */
  function Run(c: Config, acts: seq<Action>): State {
    if acts == [] then INITIAL else Step(c, Run(c, acts[..|acts| - 1]), acts[|acts| - 1])
  }

  // ---------- pending messages ----------

  function PendingIds(rows: seq<Row>): (ids: set<nat>)
    ensures forall x :: x in ids <==> exists m :: 0 <= m < |rows| && x in Ids(rows[m].items)
  {
    if rows == [] then {}
    else
      var n := |rows| - 1;
      assert forall m :: 0 <= m < n ==> rows[..n][m] == rows[m];
      PendingIds(rows[..n]) + Ids(rows[n].items)
  }

  // ---------- the invariant ----------

  ghost predicate SameSample(a: Birth, b: Birth) {
    && a.item.equip == b.item.equip && a.item.ts == b.item.ts
    && a.priority == b.priority && a.failures == b.failures && a.down == b.down
  }

  /** i and j are numbers of messages of one sample. */
  ghost predicate SameRow(born: seq<Birth>, i: nat, j: nat) {
    1 <= i <= |born| && 1 <= j <= |born| && born[i - 1].row == born[j - 1].row
  }

  /** i is an earlier message of the same priority as j. */
  ghost predicate Earlier(born: seq<Birth>, i: nat, j: nat) {
    1 <= i < j <= |born| && born[i - 1].priority == born[j - 1].priority
  }

  ghost predicate BornOk(born: seq<Birth>, q: Queue) {
    && |born| == q.seqNo
    && (forall k :: 0 <= k < |born| ==> born[k].item.id == k + 1 && !born[k].item.resend && born[k].row < q.nextRow)
    && (forall j, k :: 0 <= j < k < |born| ==> born[j].row <= born[k].row)
    && (forall i: nat, j: nat :: SameRow(born, i, j) ==> SameSample(born[i - 1], born[j - 1]))
  }

  ghost predicate BornInto(born: seq<Birth>, r: Row) {
    forall m :: 0 <= m < |r.items| ==>
                  && 1 <= r.items[m].id <= |born| && born[r.items[m].id - 1].item == r.items[m]
                  && born[r.items[m].id - 1].row == r.id && born[r.items[m].id - 1].priority == r.priority
  }

  ghost predicate Ascending(items: seq<Item>) {
    forall l, m :: 0 <= l < m < |items| ==> items[l].id < items[m].id
  }

  ghost predicate HoldsAll(born: seq<Birth>, r: Row) {
    forall k :: 0 <= k < |born| && born[k].row == r.id ==> k + 1 in Ids(r.items)
  }

  /** The row holds exactly the messages born into it, in order. */
  ghost predicate RowOk(born: seq<Birth>, r: Row) {
    r.items != [] && BornInto(born, r) && Ascending(r.items) && HoldsAll(born, r)
  }

  ghost predicate RowsOk(born: seq<Birth>, rows: seq<Row>) {
    && (forall m, n :: 0 <= m < n < |rows| ==> rows[m].id < rows[n].id)
    && (forall m :: 0 <= m < |rows| ==> RowOk(born, rows[m]))
  }

  /** The items are messages as they were born, apart from the resend flag. */
  ghost predicate Genuine(born: seq<Birth>, items: seq<Item>) {
    forall m :: 0 <= m < |items| ==>
                  1 <= items[m].id <= |born| && items[m].(resend := false) == born[items[m].id - 1].item
  }

  ghost predicate DistinctIds(items: seq<Item>) {
    forall l, m :: 0 <= l < m < |items| ==> items[l].id != items[m].id
  }

  /** With every message come all earlier ones of its priority, further to the front or in `base`. */
  ghost predicate Closed(born: seq<Birth>, items: seq<Item>, base: set<nat>) {
    forall m: nat, i: nat :: 0 <= m < |items| && Earlier(born, i, items[m].id) ==> i in Ids(items[..m]) + base
  }

  /** With every message come all others of its sample. */
  ghost predicate Whole(born: seq<Birth>, ids: set<nat>) {
    forall i: nat, j: nat :: SameRow(born, i, j) && i in ids ==> j in ids
  }

  function Strangers(born: seq<Birth>, known: set<string>): (ids: set<nat>)
    ensures forall i :: i in ids <==> 1 <= i <= |born| && born[i - 1].item.equip !in known
  {
    set k | 0 <= k < |born| && born[k].item.equip !in known :: k + 1
  }

  /** Messages that will never need to be in the ledger: purged at the Edge, or from equipment the MES
      does not know. */
  function Excused(c: Config, h: History): set<nat> {
    h.lost + Strangers(h.born, c.known)
  }

  function Settled(c: Config, h: History): set<nat> {
    Ids(h.log) + Excused(c, h)
  }

  ghost predicate Covered(born: seq<Birth>, rows: seq<Row>, settled: set<nat>) {
    forall i :: 1 <= i <= |born| ==> i in PendingIds(rows) + settled
  }

  ghost predicate LostOk(born: seq<Birth>, rows: seq<Row>, lost: set<nat>) {
    && (forall i :: i in lost ==> 1 <= i <= |born| && i !in PendingIds(rows))
    && Whole(born, lost)
  }

  ghost predicate RequestOk(born: seq<Birth>, items: seq<Item>, settled: set<nat>) {
    Genuine(born, items) && DistinctIds(items) && Closed(born, items, settled) && Whole(born, Ids(items))
  }

  ghost predicate NetOk(born: seq<Birth>, net: seq<seq<Item>>, settled: set<nat>) {
    forall q :: 0 <= q < |net| ==> RequestOk(born, net[q], settled)
  }

  ghost predicate AllKnown(known: set<string>, items: seq<Item>) {
    forall x :: x in items ==> x.equip in known
  }

  /** Only a message the MES has forgotten enters the log again. */
  ghost predicate RepeatsForgotten(log: seq<Item>, forgotten: set<nat>) {
    forall l, m :: 0 <= l < m < |log| && log[l].id == log[m].id ==> log[l].id in forgotten
  }

  ghost predicate LogOk(c: Config, h: History) {
    && Genuine(h.born, h.log) && Closed(h.born, h.log, Excused(c, h)) && Whole(h.born, Ids(h.log))
    && AllKnown(c.known, h.log) && RepeatsForgotten(h.log, h.forgotten)
  }

  ghost predicate LedgerOk(ledger: seq<Item>, h: History) {
    && DistinctIds(ledger) && Whole(h.born, Ids(ledger))
    && (forall x :: x in ledger ==> x in h.log)
    && Ids(h.log) <= Ids(ledger) + h.forgotten
    && h.forgotten <= Ids(h.log)
    && h.log == Concat(h.ingests)
  }

  function Concat(lists: seq<seq<Item>>): seq<Item> {
    if lists == [] then [] else Concat(lists[..|lists| - 1]) + lists[|lists| - 1]
  }

  ghost predicate AnswersOk(c: Config, net: seq<seq<Item>>, answers: map<nat, seq<nat>>, h: History) {
    forall q :: q in answers ==>
                  q < |net| && answers[q] == MessageIds(net[q])
                  && Ids(net[q]) <= Ids(h.log) + Strangers(h.born, c.known)
  }

  /** While a request is out, its rows stay in the queue unless the retention purge takes them. */
  ghost predicate SenderOk(sender: Sender, net: seq<seq<Item>>, q: Queue, h: History) {
    sender.Waiting? ==>
      && sender.req < |net| && net[sender.req] == Payload(sender.batch)
      && InFlightOk(sender.batch, net[sender.req], q, h)
  }

  /** The request carries every message born into its rows. */
  ghost predicate TakesAll(born: seq<Birth>, rowIds: seq<nat>, ids: set<nat>) {
    forall k :: 0 <= k < |born| && born[k].row in rowIds ==> k + 1 in ids
  }

  /** The request carries only messages born into its rows, which are still queued or were purged. */
  ghost predicate TakesOnly(born: seq<Birth>, rowIds: seq<nat>, ids: set<nat>, owed: set<nat>) {
    forall x :: x in ids ==> 1 <= x <= |born| && born[x - 1].row in rowIds && x in owed
  }

  ghost predicate InFlightOk(batch: seq<Row>, items: seq<Item>, q: Queue, h: History) {
    && ResentCount(batch) <= |items|
    && (forall m :: 0 <= m < |batch| ==> batch[m].id < q.nextRow)
    && TakesAll(h.born, RowIds(batch), Ids(items))
    && TakesOnly(h.born, RowIds(batch), Ids(items), PendingIds(q.rows) + h.lost)
  }

  ghost predicate CountsOk(q: Queue, h: History) {
    && |PendingIds(q.rows)| + q.sent + q.purged == q.seqNo + h.doubled
    && q.resent <= q.sent
  }

  /** A row's failure mark counts the failed sends since it was queued. */
  ghost predicate RowFlagsOk(h: History, r: Row) {
    r.items != [] && 1 <= r.items[0].id <= |h.born| ==>
      var b := h.born[r.items[0].id - 1];
      b.failures + r.attempts == h.failures && (r.buffered <==> b.down || r.attempts > 0)
  }

  ghost predicate FlagsOk(rows: seq<Row>, link: Link, h: History) {
    && (forall m :: 0 <= m < |rows| ==> RowFlagsOk(h, rows[m]))
    && (link == Down ==> forall m :: 0 <= m < |rows| ==> rows[m].buffered)
  }

  ghost predicate Inv(c: Config, s: State) {
    && BornOk(s.hist.born, s.queue)
    && RowsOk(s.hist.born, s.queue.rows)
    && Covered(s.hist.born, s.queue.rows, Settled(c, s.hist))
    && LostOk(s.hist.born, s.queue.rows, s.hist.lost)
    && NetOk(s.hist.born, s.net, Settled(c, s.hist))
    && LogOk(c, s.hist)
    && LedgerOk(s.ledger, s.hist)
    && AnswersOk(c, s.net, s.answers, s.hist)
    && SenderOk(s.sender, s.net, s.queue, s.hist)
    && CountsOk(s.queue, s.hist)
    && FlagsOk(s.queue.rows, s.link, s.hist)
  }
}
