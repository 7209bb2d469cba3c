// Acquisition as a whole: the PLC writes device blocks while the Edge reads the memory range by range at
// its own pace, and tells new data by a counter that wraps.

module Acquisition {
  import opened Outcomes
  import opened Modbus
  import opened ValueCodec
  import opened Polling
  import MemoryMap
  import opened ReadRanges

  datatype Device = Device(base: nat, items: seq<Item>)

  datatype Config = Config(size: nat, devices: map<string, Device>, ranges: seq<Span>, diagBase: nat)

  /** A sample the reader emitted; `poll` is the number of the poll it stems from. */
  datatype Emission = Emission(poll: nat, values: seq<(string, real)>)

  /** What the reader keeps of a device's health: its status and how many polls of it have failed. */
  datatype Health = Health(status: Word, fails: Word)

  /** What there is to know about one device.
      polls: the values of every successful poll so far; at: how many there were when the reader last read
      the block; counter: the counter value the reader last emitted for; last: the poll it stems from; health: what the
      reader last took over of its status. */
  datatype Track = Track(diag: Diag, polls: seq<seq<Word>>, at: nat, counter: Option<Word>, last: nat, emitted: seq<Emission>,
                         health: Option<Health>)

  datatype State = State(words: seq<Word>, snap: map<int, Word>, next: nat, tracks: map<string, Track>)

  datatype Action =
    | Poll(code: string, values: Option<seq<Word>>, status: Word)   // a whole `BusScanner.poll`, up to its writes
    | Beat(i: nat, word: Word)                                      // a write to the diagnostics area
    | ReadRange                                                     // one request of the reader, answered
    | ReadFails                                                     // one request of the reader fails
    | Finish                                                        // all ranges read: update every device

  function Block(d: Device): Span {
    Span(d.base, d.base + BLOCK_USED)
  }

  /** What an accepted memory map and the merged ranges provide. */
  ghost predicate Valid(c: Config) {
    && (forall k :: k in c.devices ==> DeviceFits(c, c.devices[k]))
    && (forall k, l :: k in c.devices && l in c.devices && k != l ==> Apart(Block(c.devices[k]), Block(c.devices[l])))
    && c.diagBase + DIAG_WORDS <= c.size
    && (forall j :: 0 <= j < |c.ranges| ==> 0 <= c.ranges[j].lo <= c.ranges[j].hi <= c.size)
    && (forall i, j :: 0 <= i < j < |c.ranges| ==> c.ranges[i].hi <= c.ranges[j].lo)
  }

  predicate Apart(a: Span, b: Span) {
    a.hi <= b.lo || b.hi <= a.lo
  }

  ghost predicate DeviceFits(c: Config, d: Device) {
    && d.base + BLOCK_USED <= c.size && ValueWords(d.items) <= VALUE_WORDS
    && Apart(Block(d), Span(c.diagBase, c.diagBase + DIAG_WORDS))
    && WithinSome(Block(d), c.ranges)
  }

  /** The blocks of the devices are those of the map. */
  ghost predicate FromMap(c: Config, entries: seq<MemoryMap.Entry>) {
    forall k :: k in c.devices ==> exists i :: 0 <= i < |entries| && entries[i] == MemoryMap.Entry(k, c.devices[k].base)
  }

  ghost predicate FitsMemory(c: Config) {
    && c.diagBase + DIAG_WORDS <= c.size
    && (forall k :: k in c.devices ==> c.devices[k].base + BLOCK_USED <= c.size && ValueWords(c.devices[k].items) <= VALUE_WORDS)
    && (forall j :: 0 <= j < |c.ranges| ==> 0 <= c.ranges[j].lo <= c.ranges[j].hi <= c.size)
  }

  lemma EntryOf(c: Config, entries: seq<MemoryMap.Entry>, k: string) returns (i: nat)
    requires FromMap(c, entries) && k in c.devices
    ensures i < |entries| && entries[i] == MemoryMap.Entry(k, c.devices[k].base)
  {
    i :| 0 <= i < |entries| && entries[i] == MemoryMap.Entry(k, c.devices[k].base);
  }

  lemma StartsApart(starts: seq<int>, words: int, i: nat, j: nat)
    requires MemoryMap.AllDisjoint(starts, words) && i < |starts| && j < |starts| && i != j && words >= BLOCK_USED
    ensures Apart(Span(starts[i], starts[i] + BLOCK_USED), Span(starts[j], starts[j] + BLOCK_USED))
  {
    assert i < j ==> MemoryMap.Disjoint(starts[i], starts[j], words);
    assert j < i ==> MemoryMap.Disjoint(starts[j], starts[i], words);
  }

  lemma EntrySpan(entries: seq<MemoryMap.Entry>, words: nat, diagBase: nat, i: nat)
    requires 9 <= words <= LIMIT && MemoryMap.AllDisjoint(MemoryMap.Starts(entries, diagBase), words) && i < |entries|
    ensures Span(entries[i].base, entries[i].base + words) in
            SpansOf(MemoryMap.Sorted(MemoryMap.Starts(entries, diagBase)), words, diagBase)
  {
    AcceptedMapIsSeparate(entries, words, diagBase);
    hide Separate, MemoryMap.AllDisjoint, MemoryMap.Sorted, SpansOf;
    assert SpanAt(entries[i].base, words, diagBase) == Span(entries[i].base, entries[i].base + words);
  }

  lemma DeviceFromMap(c: Config, entries: seq<MemoryMap.Entry>, words: nat, spans: seq<Span>, k: string)
    requires 9 <= words <= LIMIT && MemoryMap.AllDisjoint(MemoryMap.Starts(entries, c.diagBase), words)
    requires spans == SpansOf(MemoryMap.Sorted(MemoryMap.Starts(entries, c.diagBase)), words, c.diagBase)
    requires Holds(spans, c.ranges) && FromMap(c, entries) && FitsMemory(c) && k in c.devices
    ensures DeviceFits(c, c.devices[k])
  {
    hide Holds, FromMap, MemoryMap.AllDisjoint, MemoryMap.Sorted, SpansOf, WithinSome, ValueWords;
    var i := EntryOf(c, entries, k);
    StartsApart(MemoryMap.Starts(entries, c.diagBase), words, i, |entries|);
    EntrySpan(entries, words, c.diagBase, i);
    BlockHeld(c, spans, Span(entries[i].base, entries[i].base + words), Block(c.devices[k]));
  }

  lemma DevicesFromMap(c: Config, entries: seq<MemoryMap.Entry>, words: nat, k: string, l: string)
    requires 9 <= words && MemoryMap.AllDisjoint(MemoryMap.Starts(entries, c.diagBase), words)
    requires FromMap(c, entries) && k in c.devices && l in c.devices && k != l
    ensures Apart(Block(c.devices[k]), Block(c.devices[l]))
  {
    hide FromMap, MemoryMap.AllDisjoint;
    var i := EntryOf(c, entries, k);
    var j := EntryOf(c, entries, l);
    StartsApart(MemoryMap.Starts(entries, c.diagBase), words, i, j);
  }

  /** An accepted map with blocks of at least 9 words, read by the merged ranges, is a valid configuration. */
  lemma AcceptedMapIsValid(c: Config, entries: seq<MemoryMap.Entry>, words: nat, spans: seq<Span>)
    requires 9 <= words <= LIMIT && MemoryMap.AllDisjoint(MemoryMap.Starts(entries, c.diagBase), words)
    requires spans == SpansOf(MemoryMap.Sorted(MemoryMap.Starts(entries, c.diagBase)), words, c.diagBase)
    requires Separate(c.ranges) && Holds(spans, c.ranges) && FromMap(c, entries) && FitsMemory(c)
    ensures Valid(c)
  {
    hide Holds, FromMap, MemoryMap.AllDisjoint, MemoryMap.Sorted, SpansOf, DeviceFits, MemoryMap.Starts;
    forall k | k in c.devices
      ensures DeviceFits(c, c.devices[k])
    {
      DeviceFromMap(c, entries, words, spans, k);
    }
    forall k, l | k in c.devices && l in c.devices && k != l
      ensures Apart(Block(c.devices[k]), Block(c.devices[l]))
    {
      DevicesFromMap(c, entries, words, k, l);
    }
  }

  lemma BlockHeld(c: Config, spans: seq<Span>, s: Span, b: Span)
    requires Holds(spans, c.ranges) && s in spans && Within(b, s)
    ensures WithinSome(b, c.ranges)
  {
    var k :| 0 <= k < |spans| && spans[k] == s;
    assert WithinSome(spans[k], c.ranges);
    var j :| 0 <= j < |c.ranges| && Within(spans[k], c.ranges[j]);
    assert Within(b, c.ranges[j]);
  }

  // ---------- decoding a block ----------

  function Decoded(items: seq<Item>, words: seq<Word>): seq<(string, real)>
    requires |words| == ValueWords(items)
  {
    if items == [] then []
    else
      var it := items[|items| - 1];
      var n := ValueWords(items[..|items| - 1]);
      Decoded(items[..|items| - 1], words[..n]) + [(it.key, DecodeValue(words[n..], it.typ, it.scale))]
  }

  /** Each value is the decoding of its item's own registers. */
  lemma {:induction false} DecodedAreTheItems(items: seq<Item>, regs: Registers, k: nat)
    requires k < |items|
    ensures |Wanted(items, regs)| == ValueWords(items) && |Decoded(items, Wanted(items, regs))| == |items|
    ensures var it := items[k];
            Decoded(items, Wanted(items, regs))[k] ==
            (it.key, DecodeValue(Slice(regs, it.fc, it.address, WordCount(it.typ)), it.typ, it.scale))
  {
    var n := |items| - 1;
    var before := Wanted(items[..n], regs);
    WantedLength(items[..n], regs);
    var all := Wanted(items, regs);
    assert all[..|before|] == before;
    assert all[|before|..] == Slice(regs, items[n].fc, items[n].address, WordCount(items[n].typ));
    DecodedLength(items[..n], before);
    if k < n { DecodedAreTheItems(items[..n], regs, k); }
  }

  lemma {:induction false} WantedLength(items: seq<Item>, regs: Registers)
    ensures |Wanted(items, regs)| == ValueWords(items)
  {
    if items != [] { WantedLength(items[..|items| - 1], regs); }
  }

  lemma {:induction false} DecodedLength(items: seq<Item>, words: seq<Word>)
    requires |words| == ValueWords(items)
    ensures |Decoded(items, words)| == |items|
  {
    if items != [] { DecodedLength(items[..|items| - 1], words[..ValueWords(items[..|items| - 1])]); }
  }

  // ---------- steps ----------

  const FRESH_TRACK := Track(Diag(0, 0), [], 0, None, 0, [], None)

  function Initial(c: Config): State {
    State(seq(c.size, i => 0), map[], 0, map k | k in c.devices :: FRESH_TRACK)
  }

  function Polled(c: Config, s: State, code: string, values: Option<seq<Word>>, status: Word): State {
    if code in c.devices && code in s.tracks && c.devices[code].base + BLOCK_USED <= |s.words|
       && (values.Some? ==> |values.value| == ValueWords(c.devices[code].items) <= VALUE_WORDS) then
      var t := s.tracks[code];
      var diag := Noted(t.diag, values.Some?);
      s.(words := AfterPoll(s.words, c.devices[code].base, values, diag, status),
         tracks := s.tracks[code := t.(diag := diag, polls := if values.Some? then t.polls + [values.value] else t.polls)])
    else s
  }

  function Beaten(c: Config, s: State, i: nat, word: Word): State {
    if i < DIAG_WORDS && c.diagBase + i < |s.words| then s.(words := s.words[c.diagBase + i := word]) else s
  }

  function Copied(words: seq<Word>, r: Span): map<int, Word> {
    map x | r.lo <= x < r.hi && 0 <= x < |words| :: words[x]
  }

  function RangeRead(c: Config, s: State): State {
    if s.next < |c.ranges| then
      var r := c.ranges[s.next];
      s.(snap := s.snap + Copied(s.words, r), next := s.next + 1,
         tracks := map k | k in s.tracks ::
                     if k in c.devices && Within(Block(c.devices[k]), r) then s.tracks[k].(at := |s.tracks[k].polls|)
                     else s.tracks[k])
    else s
  }

  predicate InSnap(snap: map<int, Word>, d: Device) {
    forall x :: d.base <= x < d.base + BLOCK_USED ==> x in snap
  }

  function SnapValues(snap: map<int, Word>, d: Device): (ws: seq<Word>)
    requires InSnap(snap, d) && ValueWords(d.items) <= VALUE_WORDS
    ensures |ws| == ValueWords(d.items)
    ensures forall i :: 0 <= i < |ws| ==> ws[i] == snap[d.base + 2 + i]
  {
    seq(ValueWords(d.items), i requires 0 <= i < ValueWords(d.items) => snap[d.base + 2 + i])
  }

  /** `_update_device` */
  function Updated(t: Track, snap: map<int, Word>, d: Device): Track {
    if !InSnap(snap, d) || ValueWords(d.items) > VALUE_WORDS then t
    else
      var counter := snap[d.base + 8];
      if counter == 0 || t.counter == Some(counter) then t
      else t.(counter := Some(counter), last := t.at,
              emitted := t.emitted + [Emission(t.at, Decoded(d.items, SnapValues(snap, d)))])
  }

  /** Status and failure count are taken over with every completed read. */
  function Refreshed(t: Track, snap: map<int, Word>, d: Device): Track {
    if InSnap(snap, d) then t.(health := Some(Health(snap[d.base], snap[d.base + 1]))) else t
  }

  function Finished(c: Config, s: State): State {
    if s.next == |c.ranges| then
      s.(snap := map[], next := 0,
         tracks := map k | k in s.tracks :: 
                     if k in c.devices then Refreshed(Updated(s.tracks[k], s.snap, c.devices[k]), s.snap, c.devices[k])
                     else s.tracks[k])
    else s
  }

  function Step(c: Config, s: State, a: Action): State {
    match a
    case Poll(code, values, status) => Polled(c, s, code, values, status)
    case Beat(i, word) => Beaten(c, s, i, word)
    case ReadRange => RangeRead(c, s)
    case ReadFails => s.(snap := map[], next := 0)
    case Finish => Finished(c, s)
  }

  function Run(c: Config, acts: seq<Action>): State {
    if acts == [] then Initial(c) else Step(c, Run(c, acts[..|acts| - 1]), acts[|acts| - 1])
  }

  // ---------- the invariant, for one device ----------

  ghost predicate Sized(d: Device, polls: seq<seq<Word>>) {
    forall k :: 0 <= k < |polls| ==> |polls[k]| == ValueWords(d.items)
  }

  /** The block shows the last successful poll, and how many there were, modulo the wrap. */
  ghost predicate BlockOk(words: seq<Word>, d: Device, polls: seq<seq<Word>>) {
    && d.base + BLOCK_USED <= |words| && ValueWords(d.items) <= VALUE_WORDS && Sized(d, polls)
    && words[d.base + 8] == Counter(|polls|)
    && (polls != [] ==> words[d.base + 2..d.base + 2 + ValueWords(d.items)] == polls[|polls| - 1])
  }

  /** The snapshot of the block shows poll number n. */
  ghost predicate SnapOk(snap: map<int, Word>, d: Device, polls: seq<seq<Word>>, n: nat) {
    && InSnap(snap, d) && ValueWords(d.items) <= VALUE_WORDS && n <= |polls|
    && snap[d.base + 8] == Counter(n)
    && (n > 0 ==> SnapValues(snap, d) == polls[n - 1])
  }

  ghost predicate SnapsOk(ranges: seq<Span>, next: nat, snap: map<int, Word>, d: Device, polls: seq<seq<Word>>, at: nat) {
    forall j :: 0 <= j < next <= |ranges| && Within(Block(d), ranges[j]) ==> SnapOk(snap, d, polls, at)
  }

  ghost predicate EmittedOk(d: Device, polls: seq<seq<Word>>, emitted: seq<Emission>, last: nat) {
    && (forall k :: 0 <= k < |emitted| ==> Genuine(d, polls, emitted[k]))
    && (forall j, k :: 0 <= j < k < |emitted| ==> emitted[j].poll < emitted[k].poll)
    && (last == 0 <==> emitted == []) && (emitted != [] ==> emitted[|emitted| - 1].poll == last)
  }

  /** The sample decodes exactly one successful poll. */
  ghost predicate Genuine(d: Device, polls: seq<seq<Word>>, e: Emission) {
    && 1 <= e.poll <= |polls| && |polls[e.poll - 1]| == ValueWords(d.items)
    && e.values == Decoded(d.items, polls[e.poll - 1])
  }

  ghost predicate CountOk(diag: Diag, polls: seq<seq<Word>>) {
    diag.counter == Counter(|polls|)
  }

  ghost predicate ReaderOk(polls: seq<seq<Word>>, at: nat, last: nat, counter: Option<Word>) {
    last <= at <= |polls| && counter == (if last == 0 then None else Some(CounterWord(last)))
  }

  function CounterWord(n: nat): Word {
    CounterBelow(n);
    Counter(n)
  }

  lemma CounterBelow(n: nat)
    ensures Counter(n) < 0x10000 && (Counter(n) == 0 <==> n == 0)
  {
    CounterCycles(n);
  }

  ghost predicate Inv(c: Config, s: State) {
    && |s.words| == c.size && s.tracks.Keys == c.devices.Keys && s.next <= |c.ranges|
    && (forall k :: k in c.devices ==> DeviceOk(c, s, k))
  }

  ghost predicate DeviceOk(c: Config, s: State, k: string)
    requires k in c.devices
  {
    && k in s.tracks
    && var d, t := c.devices[k], s.tracks[k];
       && BlockOk(s.words, d, t.polls) && CountOk(t.diag, t.polls)
       && ReaderOk(t.polls, t.at, t.last, t.counter)
       && SnapsOk(c.ranges, s.next, s.snap, d, t.polls, t.at)
       && EmittedOk(d, t.polls, t.emitted, t.last)
  }

  // ---------- every step keeps it ----------

  lemma InitialInv(c: Config)
    requires Valid(c)
    ensures Inv(c, Initial(c))
  {
    forall k | k in c.devices
      ensures DeviceOk(c, Initial(c), k)
    {
      assert DeviceFits(c, c.devices[k]);
    }
  }

  /** A block is not touched by writes elsewhere. */
  lemma BlockUntouched(words: seq<Word>, more: seq<Word>, d: Device, polls: seq<seq<Word>>)
    requires BlockOk(words, d, polls) && |more| == |words|
    requires forall x :: d.base <= x < d.base + BLOCK_USED ==> more[x] == words[x]
    ensures BlockOk(more, d, polls)
  {
    assert more[d.base + 2..d.base + 2 + ValueWords(d.items)] == words[d.base + 2..d.base + 2 + ValueWords(d.items)];
  }

  lemma SnapsMore(ranges: seq<Span>, next: nat, snap: map<int, Word>, d: Device, polls: seq<seq<Word>>,
                  more: seq<seq<Word>>, at: nat)
    requires SnapsOk(ranges, next, snap, d, polls, at) && polls <= more
    ensures SnapsOk(ranges, next, snap, d, more, at)
  {
    hide SnapValues;
    forall j | 0 <= j < next <= |ranges| && Within(Block(d), ranges[j])
      ensures SnapOk(snap, d, more, at)
    {
      assert SnapOk(snap, d, polls, at);
    }
  }

  lemma EmittedMore(d: Device, polls: seq<seq<Word>>, more: seq<seq<Word>>, emitted: seq<Emission>, last: nat)
    requires EmittedOk(d, polls, emitted, last) && polls <= more
    ensures EmittedOk(d, more, emitted, last)
  {
    hide Decoded;
    forall k | 0 <= k < |emitted|
      ensures Genuine(d, more, emitted[k])
    {
      assert Genuine(d, polls, emitted[k]);
    }
  }

  lemma ReaderMore(polls: seq<seq<Word>>, more: seq<seq<Word>>, at: nat, last: nat, counter: Option<Word>)
    requires ReaderOk(polls, at, last, counter) && |polls| <= |more|
    ensures ReaderOk(more, at, last, counter) && ReaderOk(more, |more|, last, counter)
  {
  }

  lemma CountNoted(diag: Diag, polls: seq<seq<Word>>, value: seq<Word>)
    requires CountOk(diag, polls)
    ensures CountOk(Noted(diag, true), polls + [value]) && CountOk(Noted(diag, false), polls)
    ensures Noted(diag, true).counter < 0x10000
  {
    CounterBelow(|polls| + 1);
  }

  lemma PollShows(words: seq<Word>, base: nat, value: seq<Word>, diag: Diag, status: Word)
    requires base + BLOCK_USED <= |words| && |value| <= VALUE_WORDS && diag.counter < 0x10000
    ensures var r := AfterPoll(words, base, Some(value), diag, status);
            r[base + 2..base + 2 + |value|] == value && r[base + 8] == diag.counter
  {
    PollStaysInBlock(words, base, Some(value), diag, status);
  }

  lemma PolledBlock(words: seq<Word>, d: Device, polls: seq<seq<Word>>, value: seq<Word>, diag: Diag, status: Word)
    requires BlockOk(words, d, polls) && |value| == ValueWords(d.items)
    requires diag.counter == Counter(|polls| + 1) < 0x10000
    ensures BlockOk(AfterPoll(words, d.base, Some(value), diag, status), d, polls + [value])
  {
    hide AfterPoll, Counter, ValueWords, Sized;
    PollShows(words, d.base, value, diag, status);
    SizedMore(d, polls, value);
    var more, all := AfterPoll(words, d.base, Some(value), diag, status), polls + [value];
    assert |all| == |polls| + 1 && all[|all| - 1] == value;
    assert more[d.base + 8] == diag.counter;
  }

  lemma SizedMore(d: Device, polls: seq<seq<Word>>, value: seq<Word>)
    requires Sized(d, polls) && |value| == ValueWords(d.items)
    ensures Sized(d, polls + [value])
  {
  }

  lemma FailedBlock(words: seq<Word>, d: Device, polls: seq<seq<Word>>, diag: Diag, status: Word)
    requires BlockOk(words, d, polls)
    ensures BlockOk(AfterPoll(words, d.base, None, diag, status), d, polls)
  {
    PollStaysInBlock(words, d.base, None, diag, status);
    hide AfterPoll, Counter;
    var more := AfterPoll(words, d.base, None, diag, status);
    assert more[d.base + 2..d.base + 2 + ValueWords(d.items)] == words[d.base + 2..d.base + 2 + ValueWords(d.items)];
  }

  lemma OwnTrackAfterPoll(c: Config, s: State, code: string, values: Option<seq<Word>>, status: Word)
    requires Polled(c, s, code, values, status) != s
    ensures code in c.devices && code in s.tracks && c.devices[code].base + BLOCK_USED <= |s.words|
    ensures values.Some? ==> |values.value| == ValueWords(c.devices[code].items) <= VALUE_WORDS
    ensures var r, t := Polled(c, s, code, values, status), s.tracks[code];
            && code in r.tracks && r.snap == s.snap && r.next == s.next
            && r.words == AfterPoll(s.words, c.devices[code].base, values, Noted(t.diag, values.Some?), status)
            && r.tracks[code] == t.(diag := Noted(t.diag, values.Some?),
                                    polls := if values.Some? then t.polls + [values.value] else t.polls)
  {
    hide AfterPoll, Noted, ValueWords;
  }

  lemma PolledSelf(c: Config, s: State, code: string, values: Option<seq<Word>>, status: Word)
    requires Inv(c, s) && code in c.devices && Polled(c, s, code, values, status) != s
    ensures DeviceOk(c, Polled(c, s, code, values, status), code)
  {
    assert DeviceOk(c, s, code);
    OwnTrackAfterPoll(c, s, code, values, status);
    hide Inv, Polled, AfterPoll, BlockOk, EmittedOk, SnapsOk, ReaderOk, Counter, Noted, ValueWords;
    var t, d := s.tracks[code], c.devices[code];
    match values
    case None =>
      CountNoted(t.diag, t.polls, []);
      FailedBlock(s.words, d, t.polls, Noted(t.diag, false), status);
    case Some(value) =>
      CountNoted(t.diag, t.polls, value);
      PolledBlock(s.words, d, t.polls, value, Noted(t.diag, true), status);
      EmittedMore(d, t.polls, t.polls + [value], t.emitted, t.last);
      ReaderMore(t.polls, t.polls + [value], t.at, t.last, t.counter);
      SnapsMore(c.ranges, s.next, s.snap, d, t.polls, t.polls + [value], t.at);
  }

  lemma BlocksApart(c: Config, k: string, l: string)
    requires Valid(c) && k in c.devices && l in c.devices && k != l
    ensures Apart(Block(c.devices[k]), Block(c.devices[l]))
  {
  }

  lemma PollElsewhere(words: seq<Word>, base: nat, values: Option<seq<Word>>, diag: Diag, status: Word, d: Device,
                      polls: seq<seq<Word>>)
    requires base + BLOCK_USED <= |words| && (values.Some? ==> |values.value| <= VALUE_WORDS)
    requires BlockOk(words, d, polls) && Apart(Block(d), Span(base, base + BLOCK_USED))
    ensures BlockOk(AfterPoll(words, base, values, diag, status), d, polls)
  {
    PollStaysInBlock(words, base, values, diag, status);
    hide AfterPoll;
    BlockUntouched(words, AfterPoll(words, base, values, diag, status), d, polls);
  }

  lemma OtherTrackAfterPoll(c: Config, s: State, code: string, values: Option<seq<Word>>, status: Word, k: string)
    requires k in s.tracks && k != code && Polled(c, s, code, values, status) != s
    ensures var r := Polled(c, s, code, values, status);
            && k in r.tracks && r.tracks[k] == s.tracks[k] && r.snap == s.snap && r.next == s.next
            && code in c.devices && code in s.tracks && c.devices[code].base + BLOCK_USED <= |s.words|
            && (values.Some? ==> |values.value| <= VALUE_WORDS)
            && r.words == AfterPoll(s.words, c.devices[code].base, values, Noted(s.tracks[code].diag, values.Some?), status)
  {
    hide AfterPoll, Noted;
  }

  lemma PolledOther(c: Config, s: State, code: string, values: Option<seq<Word>>, status: Word, k: string)
    requires Valid(c) && Inv(c, s) && k in c.devices && k != code && Polled(c, s, code, values, status) != s
    ensures DeviceOk(c, Polled(c, s, code, values, status), k)
  {
    assert DeviceOk(c, s, k);
    OtherTrackAfterPoll(c, s, code, values, status, k);
    hide Inv, AfterPoll, EmittedOk, SnapsOk, ReaderOk, CountOk, Valid, Noted, BlockOk, Polled;
    BlocksApart(c, k, code);
    var diag := Noted(s.tracks[code].diag, values.Some?);
    PollElsewhere(s.words, c.devices[code].base, values, diag, status, c.devices[k], s.tracks[k].polls);
  }

  lemma PollKeeps(c: Config, s: State, code: string, values: Option<seq<Word>>, status: Word)
    requires Valid(c) && Inv(c, s)
    ensures Inv(c, Polled(c, s, code, values, status))
  {
    hide Valid, DeviceOk, AfterPoll, Noted;
    var r := Polled(c, s, code, values, status);
    if r != s {
      forall k | k in c.devices
        ensures DeviceOk(c, r, k)
      {
        if k == code { PolledSelf(c, s, code, values, status); } else { PolledOther(c, s, code, values, status, k); }
      }
    }
  }

  lemma BeatApart(c: Config, k: string)
    requires Valid(c) && k in c.devices
    ensures Apart(Block(c.devices[k]), Span(c.diagBase, c.diagBase + DIAG_WORDS))
  {
    assert DeviceFits(c, c.devices[k]);
  }

  lemma BeatElsewhere(words: seq<Word>, x: nat, word: Word, d: Device, polls: seq<seq<Word>>)
    requires x < |words| && BlockOk(words, d, polls) && !In(x, Block(d))
    ensures BlockOk(words[x := word], d, polls)
  {
    BlockUntouched(words, words[x := word], d, polls);
  }

  lemma BeatKeeps(c: Config, s: State, i: nat, word: Word)
    requires Valid(c) && Inv(c, s)
    ensures Inv(c, Beaten(c, s, i, word))
  {
    hide Valid, BlockOk, EmittedOk, SnapsOk, ReaderOk, CountOk;
    var r := Beaten(c, s, i, word);
    if r != s {
      forall k | k in c.devices
        ensures DeviceOk(c, r, k)
      {
        assert DeviceOk(c, s, k);
        BeatApart(c, k);
        BeatElsewhere(s.words, c.diagBase + i, word, c.devices[k], s.tracks[k].polls);
      }
    }
  }

  lemma BlockCopied(words: seq<Word>, snap: map<int, Word>, r: Span, d: Device, polls: seq<seq<Word>>)
    requires BlockOk(words, d, polls) && Within(Block(d), r)
    ensures SnapOk(snap + Copied(words, r), d, polls, |polls|)
  {
    var more := snap + Copied(words, r);
    assert forall x :: d.base <= x < d.base + BLOCK_USED ==> x in more && more[x] == words[x];
    if polls != [] {
      assert SnapValues(more, d) == words[d.base + 2..d.base + 2 + ValueWords(d.items)];
    }
  }

  lemma SnapUntouched(snap: map<int, Word>, more: map<int, Word>, d: Device, polls: seq<seq<Word>>, n: nat)
    requires SnapOk(snap, d, polls, n)
    requires forall x :: d.base <= x < d.base + BLOCK_USED && x in snap ==> x in more && more[x] == snap[x]
    ensures SnapOk(more, d, polls, n)
  {
    assert SnapValues(more, d) == SnapValues(snap, d);
  }

  lemma RangesApart(c: Config, i: nat, j: nat)
    requires Valid(c) && i < j < |c.ranges|
    ensures c.ranges[i].hi <= c.ranges[j].lo
  {
  }

  /** Reading another range leaves what is known of the block. */
  lemma RangeElsewhere(c: Config, words: seq<Word>, snap: map<int, Word>, next: nat, d: Device, polls: seq<seq<Word>>, at: nat)
    requires Valid(c) && next < |c.ranges| && !Within(Block(d), c.ranges[next]) && SnapsOk(c.ranges, next, snap, d, polls, at)
    ensures SnapsOk(c.ranges, next + 1, snap + Copied(words, c.ranges[next]), d, polls, at)
  {
    var more := snap + Copied(words, c.ranges[next]);
    hide Valid;
    forall j: nat | j < next + 1 && Within(Block(d), c.ranges[j])
      ensures SnapOk(more, d, polls, at)
    {
      assert SnapOk(snap, d, polls, at);
      RangesApart(c, j, next);
      hide SnapOk;
      SnapUntouched(snap, more, d, polls, at);
    }
  }

  lemma RangeHere(ranges: seq<Span>, words: seq<Word>, snap: map<int, Word>, next: nat, d: Device, polls: seq<seq<Word>>)
    requires next < |ranges| && Within(Block(d), ranges[next]) && BlockOk(words, d, polls)
    ensures SnapsOk(ranges, next + 1, snap + Copied(words, ranges[next]), d, polls, |polls|)
  {
    BlockCopied(words, snap, ranges[next], d, polls);
    hide SnapOk, BlockOk;
  }

  lemma TrackAfterRange(c: Config, s: State, k: string)
    requires s.next < |c.ranges| && k in c.devices && k in s.tracks
    ensures var r, range := RangeRead(c, s), c.ranges[s.next];
            && r.words == s.words && r.next == s.next + 1 && r.snap == s.snap + Copied(s.words, range) && k in r.tracks
            && r.tracks[k] == if Within(Block(c.devices[k]), range) then s.tracks[k].(at := |s.tracks[k].polls|) else s.tracks[k]
  {
  }

  lemma RangeReadDevice(c: Config, s: State, k: string)
    requires Valid(c) && Inv(c, s) && k in c.devices && s.next < |c.ranges|
    ensures DeviceOk(c, RangeRead(c, s), k)
  {
    assert DeviceOk(c, s, k);
    TrackAfterRange(c, s, k);
    hide Valid, Inv, BlockOk, EmittedOk, SnapsOk, ReaderOk, CountOk, Copied, RangeRead;
    var t, d := s.tracks[k], c.devices[k];
    if Within(Block(d), c.ranges[s.next]) {
      RangeHere(c.ranges, s.words, s.snap, s.next, d, t.polls);
      ReaderMore(t.polls, t.polls, t.at, t.last, t.counter);
    } else {
      RangeElsewhere(c, s.words, s.snap, s.next, d, t.polls, t.at);
    }
  }

  lemma RangeReadKeeps(c: Config, s: State)
    requires Valid(c) && Inv(c, s)
    ensures Inv(c, RangeRead(c, s))
  {
    hide Valid, DeviceOk, Copied;
    var r := RangeRead(c, s);
    if s.next < |c.ranges| {
      forall k | k in c.devices
        ensures DeviceOk(c, r, k)
      {
        RangeReadDevice(c, s, k);
      }
    }
  }

  lemma EmittedSnoc(d: Device, polls: seq<seq<Word>>, emitted: seq<Emission>, last: nat, e: Emission)
    requires EmittedOk(d, polls, emitted, last) && Genuine(d, polls, e) && last < e.poll
    ensures EmittedOk(d, polls, emitted + [e], e.poll)
  {
    hide Genuine;
    forall k | 0 <= k < |emitted|
      ensures emitted[k].poll < e.poll
    {
      assert k < |emitted| - 1 ==> emitted[k].poll < emitted[|emitted| - 1].poll;
    }
  }

  /** The counter in the snapshot differs from the one remembered exactly when there is something new. */
  lemma NewsIsNews(polls: seq<seq<Word>>, at: nat, last: nat, counter: Option<Word>)
    requires ReaderOk(polls, at, last, counter)
    ensures Counter(at) < 0x10000
    ensures Counter(at) == 0 || counter == Some(CounterWord(at)) <==> !(at > 0 && (last == 0 || (at - last) % 0xFFFF != 0))
    ensures at > 0 && (last == 0 || (at - last) % 0xFFFF != 0) ==> last < at
  {
    CounterBelow(at);
    CounterBelow(last);
    SameCounter(last, at);
    hide Counter;
  }

  /** Whether the block shows a poll the reader has not emitted yet, as far as the counter can tell. */
  predicate HasNews(t: Track) {
    t.at > 0 && (t.last == 0 || (t.at - t.last) % 0xFFFF != 0)
  }

  lemma SnapFacts(snap: map<int, Word>, d: Device, polls: seq<seq<Word>>, n: nat)
    requires SnapOk(snap, d, polls, n)
    ensures InSnap(snap, d) && ValueWords(d.items) <= VALUE_WORDS && n <= |polls|
    ensures Counter(n) < 0x10000 && snap[d.base + 8] == CounterWord(n)
    ensures n > 0 ==> SnapValues(snap, d) == polls[n - 1]
  {
    CounterBelow(n);
  }

  /** The reader emits exactly when the counter says there is something new, and then it is. */
  lemma UpdatedIs(t: Track, snap: map<int, Word>, d: Device)
    requires ReaderOk(t.polls, t.at, t.last, t.counter) && SnapOk(snap, d, t.polls, t.at)
    requires t.at > 0 ==> |t.polls[t.at - 1]| == ValueWords(d.items)
    ensures Updated(t, snap, d) ==
            if HasNews(t)
            then t.(counter := Some(CounterWord(t.at)), last := t.at,
                    emitted := t.emitted + [Emission(t.at, Decoded(d.items, t.polls[t.at - 1]))])
            else t
  {
    SnapFacts(snap, d, t.polls, t.at);
    NewsIsNews(t.polls, t.at, t.last, t.counter);
    hide Counter, Decoded, SnapOk, ReaderOk, SnapValues, InSnap;
  }

  lemma SnapComplete(c: Config, s: State, k: string)
    requires Valid(c) && Inv(c, s) && k in c.devices && s.next == |c.ranges|
    ensures DeviceOk(c, s, k) && SnapOk(s.snap, c.devices[k], s.tracks[k].polls, s.tracks[k].at)
  {
    assert DeviceOk(c, s, k) && DeviceFits(c, c.devices[k]);
    hide SnapOk, BlockOk, EmittedOk, ReaderOk;
    var j :| 0 <= j < |c.ranges| && Within(Block(c.devices[k]), c.ranges[j]);
  }

  lemma PollsSized(words: seq<Word>, d: Device, polls: seq<seq<Word>>, n: nat)
    requires BlockOk(words, d, polls) && 0 < n <= |polls|
    ensures |polls[n - 1]| == ValueWords(d.items)
  {
  }

  lemma ReaderIn(polls: seq<seq<Word>>, at: nat, last: nat, counter: Option<Word>)
    requires ReaderOk(polls, at, last, counter)
    ensures last <= at <= |polls| && (at > 0 ==> ReaderOk(polls, at, at, Some(CounterWord(at))))
  {
  }

  lemma TrackAfterFinish(c: Config, s: State, k: string)
    requires s.next == |c.ranges| && k in c.devices && k in s.tracks
    ensures var r := Finished(c, s);
            r.words == s.words && r.next == 0 && r.snap == map[] && k in r.tracks
            && r.tracks[k] == Refreshed(Updated(s.tracks[k], s.snap, c.devices[k]), s.snap, c.devices[k])
  {
    hide Updated, Refreshed;
  }

  lemma RefreshedKeeps(t: Track, snap: map<int, Word>, d: Device)
    ensures var r := Refreshed(t, snap, d); r == t.(health := r.health)
  {
  }

  /** The track after an update, part by part. */
  lemma UpdatedKeeps(d: Device, t: Track)
    requires ReaderOk(t.polls, t.at, t.last, t.counter) && EmittedOk(d, t.polls, t.emitted, t.last) && HasNews(t)
    requires |t.polls[t.at - 1]| == ValueWords(d.items)
    ensures ReaderOk(t.polls, t.at, t.at, Some(CounterWord(t.at)))
    ensures EmittedOk(d, t.polls, t.emitted + [Emission(t.at, Decoded(d.items, t.polls[t.at - 1]))], t.at)
  {
    NewsIsNews(t.polls, t.at, t.last, t.counter);
    ReaderIn(t.polls, t.at, t.last, t.counter);
    hide ReaderOk, EmittedOk, Genuine, Decoded, CounterWord;
    EmissionGenuine(d, t.polls, t.at);
    EmittedSnoc(d, t.polls, t.emitted, t.last, Emission(t.at, Decoded(d.items, t.polls[t.at - 1])));
  }

  lemma FinishUpdates(c: Config, s: State, k: string)
    requires Valid(c) && Inv(c, s) && k in c.devices && s.next == |c.ranges|
    ensures k in s.tracks && s.tracks[k].at <= |s.tracks[k].polls|
    ensures s.tracks[k].at > 0 ==> |s.tracks[k].polls[s.tracks[k].at - 1]| == ValueWords(c.devices[k].items)
    ensures Updated(s.tracks[k], s.snap, c.devices[k]) ==
            var t := s.tracks[k];
            if HasNews(t)
            then t.(counter := Some(CounterWord(t.at)), last := t.at,
                    emitted := t.emitted + [Emission(t.at, Decoded(c.devices[k].items, t.polls[t.at - 1]))])
            else t
  {
    SnapComplete(c, s, k);
    hide Valid, Inv, BlockOk, EmittedOk, SnapsOk, ReaderOk, CountOk, SnapOk, Updated, Counter, CounterWord, Decoded;
    var t, d := s.tracks[k], c.devices[k];
    ReaderIn(t.polls, t.at, t.last, t.counter);
    if t.at > 0 { PollsSized(s.words, d, t.polls, t.at); }
    UpdatedIs(t, s.snap, d);
  }

  lemma FinishDevice(c: Config, s: State, k: string)
    requires Valid(c) && Inv(c, s) && k in c.devices && s.next == |c.ranges|
    ensures DeviceOk(c, Finished(c, s), k)
  {
    FinishUpdates(c, s, k);
    assert DeviceOk(c, s, k);
    TrackAfterFinish(c, s, k);
    RefreshedKeeps(Updated(s.tracks[k], s.snap, c.devices[k]), s.snap, c.devices[k]);
    hide Refreshed, Valid, Inv, BlockOk, EmittedOk, SnapsOk, ReaderOk, CountOk, SnapOk, Updated, Counter, CounterWord, Decoded, Finished;
    var t, d := s.tracks[k], c.devices[k];
    NoSnaps(c.ranges, d, t.polls, t.at);
    if HasNews(t) { UpdatedKeeps(d, t); }
  }

  lemma EmissionGenuine(d: Device, polls: seq<seq<Word>>, n: nat)
    requires 0 < n <= |polls| && |polls[n - 1]| == ValueWords(d.items)
    ensures Genuine(d, polls, Emission(n, Decoded(d.items, polls[n - 1])))
  {
  }

  lemma NoSnaps(ranges: seq<Span>, d: Device, polls: seq<seq<Word>>, at: nat)
    ensures SnapsOk(ranges, 0, map[], d, polls, at)
  {
  }

  lemma FinishKeeps(c: Config, s: State)
    requires Valid(c) && Inv(c, s)
    ensures Inv(c, Finished(c, s))
  {
    hide Valid, DeviceOk, Updated;
    var r := Finished(c, s);
    if s.next == |c.ranges| {
      forall k | k in c.devices
        ensures DeviceOk(c, r, k)
      {
        FinishDevice(c, s, k);
      }
    }
  }

  lemma {:induction false} RunKeeps(c: Config, acts: seq<Action>)
    requires Valid(c)
    ensures Inv(c, Run(c, acts))
  {
    hide Valid, Inv, Polled, Beaten, RangeRead, Finished;
    if acts == [] {
      InitialInv(c);
    } else {
      var s := Run(c, acts[..|acts| - 1]);
      RunKeeps(c, acts[..|acts| - 1]);
      match acts[|acts| - 1]
      case Poll(code, values, status) => PollKeeps(c, s, code, values, status);
      case Beat(i, word) => BeatKeeps(c, s, i, word);
      case ReadRange => RangeReadKeeps(c, s);
      case ReadFails => FailKeeps(c, s);
      case Finish => FinishKeeps(c, s);
    }
  }

  lemma FailKeeps(c: Config, s: State)
    requires Inv(c, s)
    ensures Inv(c, s.(snap := map[], next := 0))
  {
    hide BlockOk, EmittedOk, SnapsOk, ReaderOk, CountOk;
    forall k | k in c.devices
      ensures DeviceOk(c, s.(snap := map[], next := 0), k)
    {
      assert DeviceOk(c, s, k);
      NoSnaps(c.ranges, c.devices[k], s.tracks[k].polls, s.tracks[k].at);
    }
  }

  // ---------- the theorems ----------

  /** In every run every sample the Edge emits decodes exactly the words of one successful poll of its
      device, never a mixture, and the polls follow one another. */
  lemma SamplesAreWholePolls(c: Config, acts: seq<Action>, k: string)
    requires Valid(c) && k in c.devices
    ensures var s := Run(c, acts);
            && k in s.tracks
            && (forall i :: 0 <= i < |s.tracks[k].emitted| ==> Genuine(c.devices[k], s.tracks[k].polls, s.tracks[k].emitted[i]))
            && (forall i, j :: 0 <= i < j < |s.tracks[k].emitted| ==>
                  s.tracks[k].emitted[i].poll < s.tracks[k].emitted[j].poll)
  {
    hide Run, Genuine, BlockOk, SnapsOk, ReaderOk, CountOk;
    RunKeeps(c, acts);
    assert DeviceOk(c, Run(c, acts), k);
  }

  /** When all ranges have been read, the Edge emits a sample of the device exactly when a poll has
      succeeded since its last emission and their number is not a multiple of 65535; and then it is the
      latest poll as of the moment the block was read. */
  lemma EmitsExactlyWhatIsNew(c: Config, acts: seq<Action>, k: string)
    requires Valid(c) && k in c.devices && Run(c, acts).next == |c.ranges|
    ensures var s, r := Run(c, acts), Run(c, acts + [Finish]);
            && k in s.tracks && k in r.tracks
            && var t := s.tracks[k];
               && t.at <= |t.polls| && (t.at > 0 ==> |t.polls[t.at - 1]| == ValueWords(c.devices[k].items))
               && r.tracks[k].emitted ==
                  t.emitted + if HasNews(t) then [Emission(t.at, Decoded(c.devices[k].items, t.polls[t.at - 1]))] else []
  {
    hide Run, Valid, Inv, Finished, Updated, Decoded, HasNews;
    FinishRun(c, acts);
    RunKeeps(c, acts);
    FinishEmits(c, Run(c, acts), k);
  }

  lemma FinishRun(c: Config, acts: seq<Action>)
    ensures Run(c, acts + [Finish]) == Finished(c, Run(c, acts))
  {
    assert (acts + [Finish])[..|acts|] == acts;
    hide Finished;
  }

  lemma FinishEmits(c: Config, s: State, k: string)
    requires Valid(c) && Inv(c, s) && k in c.devices && s.next == |c.ranges|
    ensures k in s.tracks && k in Finished(c, s).tracks
    ensures var t := s.tracks[k];
            && t.at <= |t.polls| && (t.at > 0 ==> |t.polls[t.at - 1]| == ValueWords(c.devices[k].items))
            && Finished(c, s).tracks[k].emitted ==
               t.emitted + if HasNews(t) then [Emission(t.at, Decoded(c.devices[k].items, t.polls[t.at - 1]))] else []
  {
    hide Valid, Inv, Finished, Updated, Decoded, CounterWord;
    FinishUpdates(c, s, k);
    TrackAfterFinish(c, s, k);
    RefreshedKeeps(Updated(s.tracks[k], s.snap, c.devices[k]), s.snap, c.devices[k]);
    assert s.tracks[k].emitted + [] == s.tracks[k].emitted;
  }
}
