// What the Edge knows of a device's health: the PLC writes status and failure count of every poll into the block,
// and the reader takes over what the block showed when it was read.

module DeviceHealth {
  import opened Outcomes
  import opened Modbus
  import opened Polling
  import opened ReadRanges
  import opened Acquisition

  /** How a poll went. */
  datatype Report = Report(status: Word, ok: bool)

  /** A poll of the device, with as many values as it has words. */
  predicate Reports(c: Config, a: Action, k: string) {
    && k in c.devices && a.Poll? && a.code == k
    && (a.values.Some? ==> |a.values.value| == ValueWords(c.devices[k].items))
  }

  /** All polls of the device so far, failed ones included. */
  function ReportsOf(c: Config, acts: seq<Action>, k: string): seq<Report> {
    if acts == [] then []
    else
      var a := acts[|acts| - 1];
      ReportsOf(c, acts[..|acts| - 1], k) + if Reports(c, a, k) then [Report(a.status, a.values.Some?)] else []
  }

  function Oks(reports: seq<Report>): (oks: seq<bool>)
    ensures |oks| == |reports| && forall i :: 0 <= i < |oks| ==> oks[i] == reports[i].ok
  {
    seq(|reports|, i requires 0 <= i < |reports| => reports[i].ok)
  }

  /** The status of the last poll, 0 before any. */
  function LastStatus(reports: seq<Report>): Word {
    if reports == [] then 0 else reports[|reports| - 1].status
  }

  /** The number of failed polls since the last successful one, or 65535 if there are more. */
  function FailWord(reports: seq<Report>): Word {
    var n := Trailing(Oks(reports));
    if n <= 0xFFFF then n else 0xFFFF
  }

  /** How many polls of the device there had been when its block was last read. */
  function SeenAt(c: Config, acts: seq<Action>, k: string): (n: nat)
    ensures n <= |ReportsOf(c, acts, k)|
  {
    if acts == [] then 0
    else
      var before := acts[..|acts| - 1];
      var next := Run(c, before).next;
      if acts[|acts| - 1].ReadRange? && next < |c.ranges| && k in c.devices && Within(Block(c.devices[k]), c.ranges[next]) then
        |ReportsOf(c, before, k)|
      else SeenAt(c, before, k)
  }

  // ---------- the invariant ----------

  ghost predicate WordsShow(words: seq<Word>, d: Device, reports: seq<Report>) {
    && d.base + BLOCK_USED <= |words|
    && words[d.base] == LastStatus(reports) && words[d.base + 1] == FailWord(reports)
  }

  ghost predicate SnapShows(snap: map<int, Word>, d: Device, reports: seq<Report>) {
    && d.base in snap && d.base + 1 in snap
    && snap[d.base] == LastStatus(reports) && snap[d.base + 1] == FailWord(reports)
  }

  ghost predicate ReadShows(c: Config, next: nat, snap: map<int, Word>, d: Device, reports: seq<Report>) {
    forall j :: 0 <= j < next <= |c.ranges| && Within(Block(d), c.ranges[j]) ==> SnapShows(snap, d, reports)
  }

  ghost predicate HealthOk(c: Config, s: State, k: string, reports: seq<Report>, seen: nat)
    requires k in c.devices
  {
    && k in s.tracks && seen <= |reports| && s.tracks[k].diag.fails == Trailing(Oks(reports))
    && WordsShow(s.words, c.devices[k], reports)
    && ReadShows(c, s.next, s.snap, c.devices[k], reports[..seen])
  }

  // ---------- polls ----------

  lemma OksSnoc(reports: seq<Report>, r: Report)
    ensures Oks(reports + [r]) == Oks(reports) + [r.ok]
  {
  }

  lemma TrailingSnoc(oks: seq<bool>, ok: bool)
    ensures Trailing(oks + [ok]) == if ok then 0 else Trailing(oks) + 1
  {
    assert (oks + [ok])[..|oks|] == oks;
  }

  lemma ReportCounts(diag: Diag, reports: seq<Report>, r: Report)
    requires diag.fails == Trailing(Oks(reports))
    ensures Noted(diag, r.ok).fails == Trailing(Oks(reports + [r]))
    ensures Capped(Noted(diag, r.ok).fails) == FailWord(reports + [r]) && LastStatus(reports + [r]) == r.status
  {
    hide Trailing;
    OksSnoc(reports, r);
    TrailingSnoc(Oks(reports), r.ok);
  }

  lemma DeviceInMemory(c: Config, s: State, k: string)
    requires Valid(c) && Inv(c, s) && k in c.devices
    ensures k in s.tracks && c.devices[k].base + BLOCK_USED <= |s.words| && ValueWords(c.devices[k].items) <= VALUE_WORDS
  {
    assert DeviceOk(c, s, k) && DeviceFits(c, c.devices[k]);
  }

  lemma PolledOwn(c: Config, s: State, k: string, values: Option<seq<Word>>, status: Word)
    requires k in c.devices && k in s.tracks && c.devices[k].base + BLOCK_USED <= |s.words|
    requires values.Some? ==> |values.value| == ValueWords(c.devices[k].items) <= VALUE_WORDS
    ensures var r, diag := Polled(c, s, k, values, status), Noted(s.tracks[k].diag, values.Some?);
            && r.snap == s.snap && r.next == s.next && k in r.tracks && r.tracks[k].diag == diag
            && r.words == AfterPoll(s.words, c.devices[k].base, values, diag, status)
  {
    hide AfterPoll, Noted, ValueWords;
  }

  lemma PolledShows(words: seq<Word>, d: Device, values: Option<seq<Word>>, diag: Diag, status: Word, reports: seq<Report>)
    requires d.base + BLOCK_USED <= |words| && (values.Some? ==> |values.value| <= VALUE_WORDS)
    requires LastStatus(reports) == status && FailWord(reports) == Capped(diag.fails)
    ensures WordsShow(AfterPoll(words, d.base, values, diag, status), d, reports)
  {
    hide AfterPoll, Capped, LastStatus, FailWord;
    PollStaysInBlock(words, d.base, values, diag, status);
  }

  lemma OwnPoll(c: Config, s: State, k: string, values: Option<seq<Word>>, status: Word, reports: seq<Report>, seen: nat)
    requires Valid(c) && Inv(c, s) && k in c.devices && HealthOk(c, s, k, reports, seen)
    requires values.Some? ==> |values.value| == ValueWords(c.devices[k].items)
    ensures HealthOk(c, Polled(c, s, k, values, status), k, reports + [Report(status, values.Some?)], seen)
  {
    hide Inv, Valid, AfterPoll, Noted, Capped, Trailing, LastStatus, FailWord, ReadShows, Polled, WordsShow, ValueWords;
    DeviceInMemory(c, s, k);
    var d, t := c.devices[k], s.tracks[k];
    ReportCounts(t.diag, reports, Report(status, values.Some?));
    PolledOwn(c, s, k, values, status);
    PolledShows(s.words, d, values, Noted(t.diag, values.Some?), status, reports + [Report(status, values.Some?)]);
    assert (reports + [Report(status, values.Some?)])[..seen] == reports[..seen];
  }

  lemma WordsElsewhere(words: seq<Word>, more: seq<Word>, d: Device, reports: seq<Report>)
    requires WordsShow(words, d, reports) && |more| == |words|
    requires forall x :: d.base <= x < d.base + BLOCK_USED ==> more[x] == words[x]
    ensures WordsShow(more, d, reports)
  {
    hide LastStatus, FailWord;
  }

  lemma OtherPoll(c: Config, s: State, code: string, values: Option<seq<Word>>, status: Word, k: string,
                  reports: seq<Report>, seen: nat)
    requires Valid(c) && Inv(c, s) && k in c.devices && HealthOk(c, s, k, reports, seen)
    requires code != k || (values.Some? && |values.value| != ValueWords(c.devices[k].items))
    ensures HealthOk(c, Polled(c, s, code, values, status), k, reports, seen)
  {
    hide Inv, Valid, AfterPoll, Noted, Capped, Trailing, LastStatus, FailWord, ReadShows, Polled, WordsShow, ValueWords;
    if Polled(c, s, code, values, status) != s {
      NotItsOwn(c, s, code, values, status, k);
      OtherTrackAfterPoll(c, s, code, values, status, k);
      BlocksApart(c, k, code);
      var diag := Noted(s.tracks[code].diag, values.Some?);
      ApartShows(s.words, c.devices[code].base, values, diag, status, c.devices[k], reports);
    }
  }

  lemma ApartShows(words: seq<Word>, base: nat, values: Option<seq<Word>>, diag: Diag, status: Word, d: Device,
                   reports: seq<Report>)
    requires base + BLOCK_USED <= |words| && (values.Some? ==> |values.value| <= VALUE_WORDS)
    requires WordsShow(words, d, reports) && Apart(Block(d), Span(base, base + BLOCK_USED))
    ensures WordsShow(AfterPoll(words, base, values, diag, status), d, reports)
  {
    hide AfterPoll, LastStatus, FailWord;
    PollStaysInBlock(words, base, values, diag, status);
  }

  lemma NotItsOwn(c: Config, s: State, code: string, values: Option<seq<Word>>, status: Word, k: string)
    requires k in c.devices && (code != k || (values.Some? && |values.value| != ValueWords(c.devices[k].items)))
    requires Polled(c, s, code, values, status) != s
    ensures code != k && code in c.devices
  {
    hide AfterPoll, Noted;
  }

  // ---------- the other steps ----------

  lemma OtherBeat(c: Config, s: State, i: nat, word: Word, k: string, reports: seq<Report>, seen: nat)
    requires Valid(c) && k in c.devices && HealthOk(c, s, k, reports, seen)
    ensures HealthOk(c, Beaten(c, s, i, word), k, reports, seen)
  {
    BeatApart(c, k);
    hide Valid, Trailing, LastStatus, FailWord, ReadShows;
    if i < DIAG_WORDS && c.diagBase + i < |s.words| {
      WordsElsewhere(s.words, s.words[c.diagBase + i := word], c.devices[k], reports);
    }
  }

  lemma BlockRead(c: Config, words: seq<Word>, snap: map<int, Word>, next: nat, d: Device, reports: seq<Report>)
    requires next < |c.ranges| && Within(Block(d), c.ranges[next]) && WordsShow(words, d, reports)
    ensures ReadShows(c, next + 1, snap + Copied(words, c.ranges[next]), d, reports)
  {
    hide LastStatus, FailWord;
  }

  lemma OtherRead(c: Config, words: seq<Word>, snap: map<int, Word>, next: nat, d: Device, reports: seq<Report>)
    requires Valid(c) && next < |c.ranges| && !Within(Block(d), c.ranges[next]) && ReadShows(c, next, snap, d, reports)
    ensures ReadShows(c, next + 1, snap + Copied(words, c.ranges[next]), d, reports)
  {
    hide Valid, LastStatus, FailWord;
    var more := snap + Copied(words, c.ranges[next]);
    forall j: nat | j < next + 1 && Within(Block(d), c.ranges[j])
      ensures SnapShows(more, d, reports)
    {
      assert j < next && SnapShows(snap, d, reports);
      RangesApart(c, j, next);
    }
  }

  lemma ReadStep(c: Config, s: State, k: string, reports: seq<Report>, seen: nat)
    requires Valid(c) && k in c.devices && HealthOk(c, s, k, reports, seen)
    ensures var read := s.next < |c.ranges| && Within(Block(c.devices[k]), c.ranges[s.next]);
            HealthOk(c, RangeRead(c, s), k, reports, if read then |reports| else seen)
  {
    hide Valid, Trailing, LastStatus, FailWord, ReadShows, Copied, WordsShow;
    if s.next < |c.ranges| {
      TrackAfterRange(c, s, k);
      hide RangeRead;
      if Within(Block(c.devices[k]), c.ranges[s.next]) {
        BlockRead(c, s.words, s.snap, s.next, c.devices[k], reports);
        assert reports[..|reports|] == reports;
      } else {
        OtherRead(c, s.words, s.snap, s.next, c.devices[k], reports[..seen]);
      }
    }
  }

  lemma NothingRead(c: Config, snap: map<int, Word>, d: Device, reports: seq<Report>)
    ensures ReadShows(c, 0, snap, d, reports)
  {
  }

  lemma EndOfRead(c: Config, s: State, a: Action, k: string, reports: seq<Report>, seen: nat)
    requires k in c.devices && HealthOk(c, s, k, reports, seen) && (a.ReadFails? || a.Finish?)
    ensures HealthOk(c, Step(c, s, a), k, reports, seen)
  {
    hide Trailing, LastStatus, FailWord, ReadShows, WordsShow, Updated;
    NothingRead(c, map[], c.devices[k], reports[..seen]);
    if a.Finish? && s.next == |c.ranges| {
      TrackAfterFinish(c, s, k);
      RefreshedKeeps(Updated(s.tracks[k], s.snap, c.devices[k]), s.snap, c.devices[k]);
      UpdatedDiag(s.tracks[k], s.snap, c.devices[k]);
      hide Finished, Refreshed;
    }
  }

  lemma UpdatedDiag(t: Track, snap: map<int, Word>, d: Device)
    ensures Updated(t, snap, d).diag == t.diag
  {
    hide Decoded;
  }

  lemma InitialHealth(c: Config, k: string)
    requires Valid(c) && k in c.devices
    ensures HealthOk(c, Initial(c), k, [], 0)
  {
    assert DeviceFits(c, c.devices[k]);
  }

  lemma {:induction false} RunHealth(c: Config, acts: seq<Action>, k: string)
    requires Valid(c) && k in c.devices
    ensures HealthOk(c, Run(c, acts), k, ReportsOf(c, acts, k), SeenAt(c, acts, k))
  {
    hide Valid, HealthOk, Inv, Polled, Beaten, RangeRead, Finished;
    if acts == [] {
      InitialHealth(c, k);
    } else {
      var before := acts[..|acts| - 1];
      var s, reports, seen := Run(c, before), ReportsOf(c, before, k), SeenAt(c, before, k);
      RunHealth(c, before, k);
      RunKeeps(c, before);
      assert reports + [] == reports;
      match acts[|acts| - 1]
      case Poll(code, values, status) =>
        if Reports(c, acts[|acts| - 1], k) {
          OwnPoll(c, s, k, values, status, reports, seen);
        } else {
          OtherPoll(c, s, code, values, status, k, reports, seen);
        }
      case Beat(i, word) => OtherBeat(c, s, i, word, k, reports, seen);
      case ReadRange => ReadStep(c, s, k, reports, seen);
      case ReadFails => EndOfRead(c, s, ReadFails, k, reports, seen);
      case Finish => EndOfRead(c, s, Finish, k, reports, seen);
    }
  }

  // ---------- the theorems ----------

  /** In every run the block of a device shows the status of its last poll, failed or not, and how many polls have failed
      since the last that did not, up to 65535. */
  lemma BlockShowsTheLastPoll(c: Config, acts: seq<Action>, k: string)
    requires Valid(c) && k in c.devices
    ensures var words, d, reports := Run(c, acts).words, c.devices[k], ReportsOf(c, acts, k);
            && d.base + BLOCK_USED <= |words|
            && words[d.base] == (if reports == [] then 0 else reports[|reports| - 1].status)
            && var failed := Trailing(Oks(reports)); words[d.base + 1] as int == if failed <= 65535 then failed else 65535
  {
    hide Run, Valid, Trailing, ReportsOf, ReadShows, SeenAt;
    RunHealth(c, acts, k);
  }

  lemma SnapShown(c: Config, s: State, k: string, reports: seq<Report>, seen: nat)
    requires Valid(c) && k in c.devices && HealthOk(c, s, k, reports, seen) && s.next == |c.ranges|
    ensures SnapShows(s.snap, c.devices[k], reports[..seen])
  {
    assert DeviceFits(c, c.devices[k]);
    hide SnapShows;
    var j :| 0 <= j < |c.ranges| && Within(Block(c.devices[k]), c.ranges[j]);
  }

  lemma TakenOver(c: Config, s: State, k: string, reports: seq<Report>)
    requires Valid(c) && Inv(c, s) && k in c.devices && s.next == |c.ranges| && SnapShows(s.snap, c.devices[k], reports)
    ensures k in Finished(c, s).tracks && Finished(c, s).tracks[k].health == Some(Health(LastStatus(reports), FailWord(reports)))
  {
    SnapComplete(c, s, k);
    assert InSnap(s.snap, c.devices[k]) && k in s.tracks;
    hide Valid, Inv, Updated, LastStatus, FailWord, InSnap;
    TrackAfterFinish(c, s, k);
    hide Finished;
  }

  /** In every interleaving, after a completed read: what the reader keeps of a device's health is what the last poll before
      its block was read wrote, whether that poll succeeded or failed: its status, and how many polls had failed
      since the last that did not, up to 65535. */
  lemma ReaderKeepsTheHealth(c: Config, acts: seq<Action>, k: string)
    requires Valid(c) && k in c.devices && Run(c, acts).next == |c.ranges|
    ensures k in Run(c, acts + [Finish]).tracks
    ensures var health, reports := Run(c, acts + [Finish]).tracks[k].health, ReportsOf(c, acts, k)[..SeenAt(c, acts, k)];
            && health.Some?
            && health.value.status == (if reports == [] then 0 else reports[|reports| - 1].status)
            && var failed := Trailing(Oks(reports)); health.value.fails as int == if failed <= 65535 then failed else 65535
  {
    hide Run, Valid, Inv, Finished, Trailing, ReportsOf, SeenAt, HealthOk, SnapShows;
    RunHealth(c, acts, k);
    RunKeeps(c, acts);
    FinishRun(c, acts);
    SnapShown(c, Run(c, acts), k, ReportsOf(c, acts, k), SeenAt(c, acts, k));
    TakenOver(c, Run(c, acts), k, ReportsOf(c, acts, k)[..SeenAt(c, acts, k)]);
  }

  // ---------- the diagnostics area ----------

  /** What was last written to a word of the area, 0 before. */
  function LastBeat(acts: seq<Action>, i: nat): Word {
    if acts == [] then 0
    else
      var a := acts[|acts| - 1];
      if a.Beat? && a.i == i then a.word else LastBeat(acts[..|acts| - 1], i)
  }

  lemma BeatStep(c: Config, s: State, a: Action, i: nat)
    requires Valid(c) && i < DIAG_WORDS && |s.words| == c.size
    ensures |Step(c, s, a).words| == c.size
    ensures Step(c, s, a).words[c.diagBase + i] == if a.Beat? && a.i == i then a.word else s.words[c.diagBase + i]
  {
    hide AfterPoll, WithinSome, Decoded, Updated, Noted, Copied;
    if a.Poll? && Polled(c, s, a.code, a.values, a.status) != s {
      assert DeviceFits(c, c.devices[a.code]);
      PollStaysInBlock(s.words, c.devices[a.code].base, a.values, Noted(s.tracks[a.code].diag, a.values.Some?), a.status);
    }
  }

  /** In every run a word of the diagnostics area is what was last written to it: no poll disturbs it. */
  lemma {:induction false} DiagShowsTheBeats(c: Config, acts: seq<Action>, i: nat)
    requires Valid(c) && i < DIAG_WORDS
    ensures |Run(c, acts).words| == c.size && Run(c, acts).words[c.diagBase + i] == LastBeat(acts, i)
  {
    hide Valid, Step;
    if acts == [] {
      assert c.diagBase + i < c.size by { AreaFits(c); }
    } else {
      var n := |acts| - 1;
      DiagShowsTheBeats(c, acts[..n], i);
      BeatStep(c, Run(c, acts[..n]), acts[n], i);
    }
  }

  lemma AreaFits(c: Config)
    requires Valid(c)
    ensures c.diagBase + DIAG_WORDS <= c.size
  {
  }
}
