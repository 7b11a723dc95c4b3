/** What holds of the pipeline's journal after any number of frames, with calls failing anywhere. */
module PipelineRuns {
  import opened Common
  import opened Zones
  import TrackerModel
  import TrackerRuns
  import opened Tracker
  import opened Pipeline

  predicate ValidFrames(frames: seq<Frame>) {
    forall f | f in frames :: |f.tracked| == |f.tracks|
  }

  function Run(cooldown: real, frames: seq<Frame>): Pipeline.State
    requires ValidFrames(frames)
  {
    if frames == [] then Pipeline.State([], map[])
    else FrameStep(cooldown, Run(cooldown, frames[..|frames| - 1]), frames[|frames| - 1])
  }

  // ---------- counting entries ----------

  datatype Kind = Danger | Alert | Mark | Note

  predicate Is(e: Entry, kind: Kind, pair: CatZone) {
    match kind
    case Danger => e.DetectionStored? && e.danger && e.cat == pair.0 && e.zone == Some(pair.1)
    case Alert => e.AlertStored? && e.pair == pair
    case Mark => e.Marked? && e.pair == pair
    case Note => e.AlertNoted? && e.pair == pair
  }

  function Count(journal: seq<Entry>, kind: Kind, pair: CatZone): nat {
    if journal == [] then 0
    else Count(journal[..|journal| - 1], kind, pair) + if Is(journal[|journal| - 1], kind, pair) then 1 else 0
  }

  lemma CountMore(journal: seq<Entry>, e: Entry, kind: Kind, pair: CatZone)
    ensures Count(journal + [e], kind, pair) == Count(journal, kind, pair) + if Is(e, kind, pair) then 1 else 0
  {
    assert (journal + [e])[..|journal|] == journal;
  }

  /** ALERT activities <= cooldown marks <= alert rows <= in-danger detection rows, for one cat and zone. */
  predicate Ordered(journal: seq<Entry>, pair: CatZone) {
    && Count(journal, Note, pair) <= Count(journal, Mark, pair)
    && Count(journal, Mark, pair) <= Count(journal, Alert, pair)
    && Count(journal, Alert, pair) <= Count(journal, Danger, pair)
  }

  /** So at every moment, for every cat and zone. */
  ghost predicate Sound(journal: seq<Entry>) {
    forall i, pair | 0 <= i <= |journal| :: Ordered(journal[..i], pair)
  }

  /** What must hold for an entry to come next. */
  predicate Due(journal: seq<Entry>, e: Entry) {
    match e
    case AlertStored(pair) => Count(journal, Alert, pair) < Count(journal, Danger, pair)
    case Marked(pair, _) => Count(journal, Mark, pair) < Count(journal, Alert, pair)
    case AlertNoted(pair) => Count(journal, Note, pair) < Count(journal, Mark, pair)
    case _ => true
  }

  lemma SoundMore(journal: seq<Entry>, e: Entry)
    requires Sound(journal) && Due(journal, e)
    ensures Sound(journal + [e])
  {
    var more := journal + [e];
    forall i, pair | 0 <= i <= |more| ensures Ordered(more[..i], pair) {
      if i <= |journal| {
        assert more[..i] == journal[..i];
      } else {
        assert more[..i] == more && journal[..|journal|] == journal;
        assert Ordered(journal[..|journal|], pair);
        CountMore(journal, e, Note, pair);
        CountMore(journal, e, Mark, pair);
        CountMore(journal, e, Alert, pair);
        CountMore(journal, e, Danger, pair);
      }
    }
  }

  lemma OrderedNow(journal: seq<Entry>, pair: CatZone)
    requires Sound(journal)
    ensures Ordered(journal, pair)
  {
    assert journal[..|journal|] == journal;
    assert Ordered(journal[..|journal|], pair);
  }

  lemma CallingSound(p: Progress, call: Call, e: Entry)
    requires Sound(p.journal) && Due(p.journal, e)
    ensures Sound(Calling(p, call, e).journal)
  {
    SoundMore(p.journal, e);
  }

  lemma FireSound(p: Progress, pair: CatZone, sc: TrackScript)
    requires Sound(p.journal) && Count(p.journal, Alert, pair) < Count(p.journal, Danger, pair)
    ensures var q := Fire(p, pair, sc);
            Sound(q.journal) && (!q.raised ==> Count(q.journal, Mark, pair) < Count(q.journal, Alert, pair))
  {
    OrderedNow(p.journal, pair);
    CallingSound(p, sc.alert, AlertStored(pair));
    var p1 := Calling(p, sc.alert, AlertStored(pair));
    if !p1.raised {
      CountMore(p.journal, AlertStored(pair), Mark, pair);
      CountMore(p.journal, AlertStored(pair), Alert, pair);
      CallingSound(p1, Works, WebhookPosted(pair));
      var p2 := Calling(p1, Works, WebhookPosted(pair));
      CountMore(p1.journal, WebhookPosted(pair), Mark, pair);
      CountMore(p1.journal, WebhookPosted(pair), Alert, pair);
      var e := StatusStored(pair, StatusAfter(sc.post));
      CallingSound(p2, sc.status, e);
      CountMore(p2.journal, e, Mark, pair);
      CountMore(p2.journal, e, Alert, pair);
    }
  }

  lemma AlertSound(cooldown: real, p: Progress, pair: CatZone, sc: TrackScript)
    requires Sound(p.journal) && Count(p.journal, Alert, pair) < Count(p.journal, Danger, pair)
    ensures Sound(AlertStep(cooldown, p, pair, sc).journal)
  {
    FireSound(p, pair, sc);
    var p1 := Fire(p, pair, sc);
    if !p1.raised {
      var e := Marked(pair, sc.marked);
      OrderedNow(p1.journal, pair);
      SoundMore(p1.journal, e);
      CountMore(p1.journal, e, Note, pair);
      CountMore(p1.journal, e, Mark, pair);
      SoundMore(p1.journal + [e], AlertNoted(pair));
    }
  }

  lemma TrackSound(cooldown: real, f: Frame, t: Tracked, sc: TrackScript, p: Progress)
    requires Sound(p.journal)
    ensures Sound(TrackStep(cooldown, f, t, sc, p).journal)
  {
    if sc.cat != Lost {
      var cat, zone := sc.cat.cat, FirstZone(f.zones, t.track.centroid);
      var e := DetectionOf(f, t, cat);
      CallingSound(p, sc.detection, e);
      var p1 := Calling(p, sc.detection, e);
      if !p1.raised {
        CallingSound(p1, sc.detectionNote, DetectionNoted(cat));
        var p2 := Calling(p1, sc.detectionNote, DetectionNoted(cat));
        if !p2.raised && zone.Some? {
          var pair := (cat, zone.value);
          OrderedNow(p.journal, pair);
          CountMore(p.journal, e, Alert, pair);
          CountMore(p.journal, e, Danger, pair);
          CountMore(p1.journal, DetectionNoted(cat), Alert, pair);
          CountMore(p1.journal, DetectionNoted(cat), Danger, pair);
          AlertSound(cooldown, p2, pair, sc);
        }
      }
    }
  }

  lemma TracksSound(cooldown: real, f: Frame, n: nat, p: Progress)
    requires n <= |f.tracked| == |f.tracks| && Sound(p.journal)
    ensures Sound(TracksStep(cooldown, f, n, p).journal)
  {
    var inv := (k: nat, q: Progress) => Sound(q.journal);
    forall k: nat, q | k < n && inv(k, q) ensures inv(k + 1, StepAt(cooldown, f, k, q)) {
      TrackSound(cooldown, f, f.tracked[k], f.tracks[k], q);
    }
    TracksKeep(cooldown, f, 0, n, p, inv);
  }

  lemma FrameSound(cooldown: real, s: Pipeline.State, f: Frame)
    requires |f.tracked| == |f.tracks| && Sound(s.journal)
    ensures Sound(FrameStep(cooldown, s, f).journal)
  {
    var start := Progress(s.journal, s.lastFired, [], false);
    var p := TracksStep(cooldown, f, |f.tracked|, start);
    TracksSound(cooldown, f, |f.tracked|, start);
    SoundMore(p.journal, Published(p.boxes));
  }

  /** After any frames, with any calls failing, and at every moment on the way. */
  lemma {:induction false} RunsAreSound(cooldown: real, frames: seq<Frame>)
    requires ValidFrames(frames)
    ensures Sound(Run(cooldown, frames).journal)
  {
    if frames == [] {
      assert forall pair :: Ordered([], pair);
    } else {
      RunsAreSound(cooldown, frames[..|frames| - 1]);
      FrameSound(cooldown, Run(cooldown, frames[..|frames| - 1]), frames[|frames| - 1]);
    }
  }

  lemma {:induction false} CountedIsThere(journal: seq<Entry>, kind: Kind, pair: CatZone) returns (i: nat)
    requires Count(journal, kind, pair) > 0
    ensures i < |journal| && Is(journal[i], kind, pair)
  {
    var n := |journal| - 1;
    if Is(journal[n], kind, pair) {
      i := n;
    } else {
      i := CountedIsThere(journal[..n], kind, pair);
    }
  }

  /** No alert without a detection: every alert row has an earlier in-danger detection row of its cat and zone. */
  lemma AlertHasEarlierDetection(cooldown: real, frames: seq<Frame>, j: nat) returns (i: nat)
    requires ValidFrames(frames)
    requires j < |Run(cooldown, frames).journal| && Run(cooldown, frames).journal[j].AlertStored?
    ensures i < j && Is(Run(cooldown, frames).journal[i], Danger, Run(cooldown, frames).journal[j].pair)
  {
    RunsAreSound(cooldown, frames);
    var journal := Run(cooldown, frames).journal;
    var pair := journal[j].pair;
    assert Ordered(journal[..j + 1], pair);
    assert journal[..j + 1] == journal[..j] + [journal[j]];
    CountMore(journal[..j], journal[j], Alert, pair);
    CountMore(journal[..j], journal[j], Danger, pair);
    i := CountedIsThere(journal[..j], Danger, pair);
  }

  // ---------- the cooldown ----------

  /** What the clock read last after the first n tracks of a frame, if it read `start` before. */
  function LastReading(f: Frame, n: nat, start: real): real
    requires n <= |f.tracks|
  {
    if n == 0 then start else f.tracks[n - 1].marked
  }

  /** The clock does not go back. */
  predicate Ticks(f: Frame, n: nat, start: real)
    requires n <= |f.tracks|
  {
    forall k | 0 <= k < n :: TicksAt(f, k, start)
  }

  predicate TicksAt(f: Frame, k: nat, start: real)
    requires k < |f.tracks|
  {
    LastReading(f, k, start) <= f.tracks[k].checked <= f.tracks[k].marked
  }

  function ClockAfter(frames: seq<Frame>, start: real): real {
    if frames == [] then start
    else LastReading(frames[|frames| - 1], |frames[|frames| - 1].tracks|, ClockAfter(frames[..|frames| - 1], start))
  }

  predicate ClockRuns(frames: seq<Frame>, start: real) {
    frames == [] ||
    (ClockRuns(frames[..|frames| - 1], start) &&
     Ticks(frames[|frames| - 1], |frames[|frames| - 1].tracks|, ClockAfter(frames[..|frames| - 1], start)))
  }

  /** When each pair was marked last, from the journal. */
  function LastMarks(journal: seq<Entry>): map<CatZone, real> {
    if journal == [] then map[]
    else
      var before, e := LastMarks(journal[..|journal| - 1]), journal[|journal| - 1];
      if e.Marked? then before[e.pair := e.time] else before
  }

  /** A mark comes at least the cooldown after the last one of its pair. */
  predicate MayFollow(cooldown: real, before: map<CatZone, real>, e: Entry) {
    e.Marked? && e.pair in before ==> e.time - before[e.pair] >= cooldown && e.time >= before[e.pair]
  }

  predicate Apart(cooldown: real, journal: seq<Entry>) {
    journal == [] ||
    (Apart(cooldown, journal[..|journal| - 1]) &&
     MayFollow(cooldown, LastMarks(journal[..|journal| - 1]), journal[|journal| - 1]))
  }

  /** The marks are apart, and the table holds the latest. */
  ghost predicate Spaced(cooldown: real, journal: seq<Entry>, lastFired: map<CatZone, real>, now: real) {
    && Apart(cooldown, journal)
    && lastFired == LastMarks(journal)
    && (forall pair | pair in lastFired :: lastFired[pair] <= now)
  }

  lemma ApartMore(cooldown: real, journal: seq<Entry>, e: Entry)
    requires Apart(cooldown, journal) && MayFollow(cooldown, LastMarks(journal), e)
    ensures Apart(cooldown, journal + [e])
    ensures LastMarks(journal + [e]) == if e.Marked? then LastMarks(journal)[e.pair := e.time] else LastMarks(journal)
  {
    assert (journal + [e])[..|journal|] == journal;
  }

  lemma SpacedMore(cooldown: real, journal: seq<Entry>, lastFired: map<CatZone, real>, now: real, e: Entry)
    requires Spaced(cooldown, journal, lastFired, now) && !e.Marked?
    ensures Spaced(cooldown, journal + [e], lastFired, now)
  {
    ApartMore(cooldown, journal, e);
  }

  lemma SpacedLater(cooldown: real, journal: seq<Entry>, lastFired: map<CatZone, real>, now: real, later: real)
    requires Spaced(cooldown, journal, lastFired, now) && now <= later
    ensures Spaced(cooldown, journal, lastFired, later)
  {
  }

  lemma SpacedMark(cooldown: real, journal: seq<Entry>, lastFired: map<CatZone, real>, now: real, pair: CatZone,
      checked: real, marked: real)
    requires Spaced(cooldown, journal, lastFired, now) && now <= checked <= marked
    requires ShouldFire(cooldown, lastFired, pair, checked)
    ensures Spaced(cooldown, journal + [Marked(pair, marked)], lastFired[pair := marked], marked)
  {
    ApartMore(cooldown, journal, Marked(pair, marked));
  }

  lemma CallingSpaced(cooldown: real, p: Progress, call: Call, e: Entry, now: real)
    requires Spaced(cooldown, p.journal, p.lastFired, now) && !e.Marked?
    ensures var q := Calling(p, call, e); Spaced(cooldown, q.journal, q.lastFired, now)
  {
    SpacedMore(cooldown, p.journal, p.lastFired, now, e);
  }

  lemma FireSpaced(cooldown: real, p: Progress, pair: CatZone, sc: TrackScript, now: real)
    requires Spaced(cooldown, p.journal, p.lastFired, now)
    ensures var q := Fire(p, pair, sc); Spaced(cooldown, q.journal, q.lastFired, now) && q.lastFired == p.lastFired
  {
    CallingSpaced(cooldown, p, sc.alert, AlertStored(pair), now);
    var p1 := Calling(p, sc.alert, AlertStored(pair));
    if !p1.raised {
      CallingSpaced(cooldown, p1, Works, WebhookPosted(pair), now);
      var p2 := Calling(p1, Works, WebhookPosted(pair));
      if sc.post != OtherError {
        CallingSpaced(cooldown, p2, sc.status, StatusStored(pair, StatusAfter(sc.post)), now);
      }
    }
  }

  lemma AlertSpaced(cooldown: real, p: Progress, pair: CatZone, sc: TrackScript, now: real)
    requires Spaced(cooldown, p.journal, p.lastFired, now) && now <= sc.checked <= sc.marked
    ensures var q := AlertStep(cooldown, p, pair, sc); Spaced(cooldown, q.journal, q.lastFired, sc.marked)
  {
    FireSpaced(cooldown, p, pair, sc, now);
    var p1 := Fire(p, pair, sc);
    SpacedLater(cooldown, p.journal, p.lastFired, now, sc.marked);
    SpacedLater(cooldown, p1.journal, p1.lastFired, now, sc.marked);
    if ShouldFire(cooldown, p.lastFired, pair, sc.checked) && !p1.raised {
      SpacedMark(cooldown, p1.journal, p1.lastFired, now, pair, sc.checked, sc.marked);
      SpacedMore(cooldown, p1.journal + [Marked(pair, sc.marked)], p1.lastFired[pair := sc.marked], sc.marked,
          AlertNoted(pair));
    }
  }

  lemma TrackSpaced(cooldown: real, f: Frame, t: Tracked, sc: TrackScript, p: Progress, now: real)
    requires Spaced(cooldown, p.journal, p.lastFired, now) && now <= sc.checked <= sc.marked
    ensures var q := TrackStep(cooldown, f, t, sc, p); Spaced(cooldown, q.journal, q.lastFired, sc.marked)
  {
    SpacedLater(cooldown, p.journal, p.lastFired, now, sc.marked);
    if sc.cat != Lost {
      var cat, zone := sc.cat.cat, FirstZone(f.zones, t.track.centroid);
      var e := DetectionOf(f, t, cat);
      CallingSpaced(cooldown, p, sc.detection, e, now);
      var p1 := Calling(p, sc.detection, e);
      CallingSpaced(cooldown, p1, sc.detectionNote, DetectionNoted(cat), now);
      var p2 := Calling(p1, sc.detectionNote, DetectionNoted(cat));
      SpacedLater(cooldown, p1.journal, p1.lastFired, now, sc.marked);
      SpacedLater(cooldown, p2.journal, p2.lastFired, now, sc.marked);
      if zone.Some? {
        AlertSpaced(cooldown, p2, (cat, zone.value), sc, now);
      }
    }
  }

  lemma {:induction false} TicksForward(f: Frame, n: nat, start: real)
    requires n <= |f.tracks| && Ticks(f, n, start)
    ensures start <= LastReading(f, n, start)
  {
    if n > 0 {
      TicksForward(f, n - 1, start);
      assert TicksAt(f, n - 1, start);
    }
  }

  lemma StepSpaced(cooldown: real, f: Frame, k: nat, p: Progress, start: real)
    requires k < |f.tracked| == |f.tracks| && TicksAt(f, k, start)
    requires Spaced(cooldown, p.journal, p.lastFired, LastReading(f, k, start))
    ensures var q := StepAt(cooldown, f, k, p); Spaced(cooldown, q.journal, q.lastFired, LastReading(f, k + 1, start))
  {
    if p.raised {
      SpacedLater(cooldown, p.journal, p.lastFired, LastReading(f, k, start), LastReading(f, k + 1, start));
    } else {
      TrackSpaced(cooldown, f, f.tracked[k], f.tracks[k], p, LastReading(f, k, start));
    }
  }

  /** After k tracks of a frame that begins with `p`. */
  ghost predicate SpacedSoFar(cooldown: real, f: Frame, p: Progress, start: real, k: nat, q: Progress) {
    && k <= |f.tracked| == |f.tracks| && q == TracksStep(cooldown, f, k, p)
    && Spaced(cooldown, q.journal, q.lastFired, LastReading(f, k, start))
  }

  lemma NextSpaced(cooldown: real, f: Frame, p: Progress, start: real, k: nat, q: Progress)
    requires k < |f.tracked| == |f.tracks| && TicksAt(f, k, start) && SpacedSoFar(cooldown, f, p, start, k, q)
    ensures SpacedSoFar(cooldown, f, p, start, k + 1, StepAt(cooldown, f, k, q))
  {
    NextTrack(cooldown, f, k, p, q);
    StepSpaced(cooldown, f, k, q, start);
  }

  lemma TracksSpaced(cooldown: real, f: Frame, n: nat, p: Progress, start: real)
    requires n <= |f.tracked| == |f.tracks| && Ticks(f, |f.tracks|, start)
    requires Spaced(cooldown, p.journal, p.lastFired, start)
    ensures SpacedSoFar(cooldown, f, p, start, n, TracksStep(cooldown, f, n, p))
  {
    var q := p;
    for k := 0 to n
      invariant SpacedSoFar(cooldown, f, p, start, k, q)
    {
      assert TicksAt(f, k, start);
      NextSpaced(cooldown, f, p, start, k, q);
      q := StepAt(cooldown, f, k, q);
    }
  }

  lemma FrameSpaced(cooldown: real, s: Pipeline.State, f: Frame, start: real)
    requires |f.tracked| == |f.tracks| && Ticks(f, |f.tracks|, start)
    requires Spaced(cooldown, s.journal, s.lastFired, start)
    ensures var t := FrameStep(cooldown, s, f); Spaced(cooldown, t.journal, t.lastFired, LastReading(f, |f.tracks|,
        start))
  {
    var now := LastReading(f, |f.tracks|, start);
    TicksForward(f, |f.tracks|, start);
    SpacedLater(cooldown, s.journal, s.lastFired, start, now);
    var p0 := Progress(s.journal, s.lastFired, [], false);
    var p := TracksStep(cooldown, f, |f.tracked|, p0);
    TracksSpaced(cooldown, f, |f.tracked|, p0, start);
    CallingSpaced(cooldown, p, f.publish, Published(p.boxes), now);
  }

  lemma {:induction false} RunSpaced(cooldown: real, frames: seq<Frame>, start: real)
    requires ValidFrames(frames) && ClockRuns(frames, start)
    ensures var s := Run(cooldown, frames); Spaced(cooldown, s.journal, s.lastFired, ClockAfter(frames, start))
  {
    if frames != [] {
      var front := frames[..|frames| - 1];
      RunSpaced(cooldown, front, start);
      FrameSpaced(cooldown, Run(cooldown, front), frames[|frames| - 1], ClockAfter(front, start));
    }
  }

  /** Marks of a pair between two times. */
  function MarksBetween(journal: seq<Entry>, pair: CatZone, from: real, to: real): nat {
    if journal == [] then 0
    else
      var e := journal[|journal| - 1];
      MarksBetween(journal[..|journal| - 1], pair, from, to) + if Is(e, Mark, pair)
          && from <= e.time <= to then 1 else 0
  }

  ghost predicate MarksApart(cooldown: real, journal: seq<Entry>, pair: CatZone) {
    forall i, j | 0 <= i < j < |journal| && Is(journal[i], Mark, pair) && Is(journal[j], Mark, pair) ::
      journal[j].time - journal[i].time >= cooldown
  }

  lemma {:induction false} MarkedSince(cooldown: real, journal: seq<Entry>, i: nat)
    requires Apart(cooldown, journal) && i < |journal| && journal[i].Marked?
    ensures var l := LastMarks(journal); journal[i].pair in l && journal[i].time <= l[journal[i].pair]
  {
    if i < |journal| - 1 {
      MarkedSince(cooldown, journal[..|journal| - 1], i);
    }
  }

  lemma {:induction false} SpacedApart(cooldown: real, journal: seq<Entry>, pair: CatZone)
    requires Apart(cooldown, journal)
    ensures MarksApart(cooldown, journal, pair)
  {
    if journal != [] {
      var front, e := journal[..|journal| - 1], journal[|journal| - 1];
      SpacedApart(cooldown, front, pair);
      if Is(e, Mark, pair) {
        forall i | 0 <= i < |front| && Is(front[i], Mark, pair) ensures e.time - front[i].time >= cooldown {
          MarkedSince(cooldown, front, i);
        }
      }
      forall i, j | 0 <= i < j < |journal| && Is(journal[i], Mark, pair) && Is(journal[j], Mark, pair)
        ensures journal[j].time - journal[i].time >= cooldown
      {
        assert front[i] == journal[i];
        if j < |front| {
          assert front[j] == journal[j];
        }
      }
    }
  }

  /**
    Over any run, the marks of one cat and zone are at least the cooldown apart, and the cooldown table holds
    the last of each.
  */
  lemma RunsAreSpaced(cooldown: real, frames: seq<Frame>, start: real, pair: CatZone)
    requires ValidFrames(frames) && ClockRuns(frames, start)
    ensures var s := Run(cooldown, frames); MarksApart(cooldown, s.journal, pair) && s.lastFired == LastMarks(s.journal)
  {
    RunSpaced(cooldown, frames, start);
    SpacedApart(cooldown, Run(cooldown, frames).journal, pair);
  }

  /** n times c */
  function Span(n: nat, c: real): real {
    if n == 0 then 0.0 else Span(n - 1, c) + c
  }

  lemma {:induction false} SpanIsProduct(n: nat, c: real)
    ensures Span(n, c) == n as real * c
  {
    if n > 0 {
      SpanIsProduct(n - 1, c);
      var m := (n - 1) as real;
      assert n as real == m + 1.0;
      assert (m + 1.0) * c == m * c + c;
    }
  }

  /** Each further mark in the window takes one more cooldown. */
  lemma {:induction false} MarksSpan(cooldown: real, journal: seq<Entry>, pair: CatZone, from: real, to: real)
      returns (last: real)
    requires cooldown > 0.0 && MarksApart(cooldown, journal, pair)
    ensures var n := MarksBetween(journal, pair, from, to);
            n > 0 ==>
              && from + Span(n - 1, cooldown) <= last <= to
              && exists i :: 0 <= i < |journal| && Is(journal[i], Mark, pair) && journal[i].time == last
  {
    last := from;
    if journal != [] {
      var k := |journal| - 1;
      var e := journal[k];
      last := MarksSpan(cooldown, journal[..k], pair, from, to);
      if Is(e, Mark, pair) && from <= e.time <= to {
        last := e.time;
      }
    }
  }

  /** In any window of length T a cat and zone get at most floor(T / cooldown) + 1 completed alerts. */
  lemma AlertsPerWindow(cooldown: real, frames: seq<Frame>, start: real, pair: CatZone, from: real, length: real)
    requires ValidFrames(frames) && ClockRuns(frames, start) && cooldown > 0.0 && length >= 0.0
    ensures MarksBetween(Run(cooldown, frames).journal, pair, from, from + length) <= (length / cooldown).Floor + 1
  {
    RunSpaced(cooldown, frames, start);
    JournalWindow(cooldown, Run(cooldown, frames), ClockAfter(frames, start), pair, from, length);
  }

  lemma JournalWindow(cooldown: real, s: Pipeline.State, now: real, pair: CatZone, from: real, length: real)
    requires Spaced(cooldown, s.journal, s.lastFired, now) && cooldown > 0.0 && length >= 0.0
    ensures MarksBetween(s.journal, pair, from, from + length) <= (length / cooldown).Floor + 1
  {
    SpacedApart(cooldown, s.journal, pair);
    WindowCount(cooldown, s.journal, pair, from, length);
  }

  lemma WindowCount(cooldown: real, journal: seq<Entry>, pair: CatZone, from: real, length: real)
    requires cooldown > 0.0 && MarksApart(cooldown, journal, pair) && length >= 0.0
    ensures MarksBetween(journal, pair, from, from + length) <= (length / cooldown).Floor + 1
  {
    var last := MarksSpan(cooldown, journal, pair, from, from + length);
    var n := MarksBetween(journal, pair, from, from + length);
    var k := if n > 0 then n - 1 else 0;
    SpanIsProduct(k, cooldown);
    FloorBound(k, cooldown, length);
  }

  lemma FloorBound(n: nat, c: real, t: real)
    requires c > 0.0 && n as real * c <= t
    ensures n <= (t / c).Floor
  {
    assert n as real <= t / c;
  }

  // ---------- what the cooldown does not bound ----------

  predicate Completes(sc: TrackScript) {
    sc.alert == Works && sc.post != OtherError && sc.status == Works
  }

  function Posts(journal: seq<Entry>, pair: CatZone): nat {
    if journal == [] then 0
    else Posts(journal[..|journal| - 1], pair) + if journal[|journal| - 1] == WebhookPosted(pair) then 1 else 0
  }

  lemma PostsMore(journal: seq<Entry>, e: Entry, pair: CatZone)
    ensures Posts(journal + [e], pair) == Posts(journal, pair) + if e == WebhookPosted(pair) then 1 else 0
  {
    assert (journal + [e])[..|journal|] == journal;
  }

  function FullFire(pair: CatZone, sc: TrackScript): seq<Entry> {
    [AlertStored(pair), WebhookPosted(pair), StatusStored(pair, if sc.post == Accepted then Sent else Failed)]
  }

  /**
    A fire leaves a pending row, the webhook call and the row's final status, sent or failed, in that
    order, and stops part of the way when something raises. It completes unless a database call raises or
    the webhook fails with something other than an HTTP error, which leaves the row pending.
  */
  lemma FireTrace(p: Progress, pair: CatZone, sc: TrackScript) returns (k: nat)
    requires !p.raised
    ensures k <= 3 && Fire(p, pair, sc).journal == p.journal + FullFire(pair, sc)[..k]
    ensures Completes(sc) <==> !Fire(p, pair, sc).raised
    ensures !Fire(p, pair, sc).raised ==> k == 3
    ensures sc.post == OtherError ==> k <= 2
    ensures k >= 2 <==> sc.alert == Works
    ensures Fire(p, pair, sc).lastFired == p.lastFired
  {
    var p1 := Calling(p, sc.alert, AlertStored(pair));
    var full := FullFire(pair, sc);
    if p1.raised {
      k := if sc.alert == RaisesBefore then 0 else 1;
      assert full[..1] == [AlertStored(pair)];
    } else {
      assert p.journal + [AlertStored(pair)] + [WebhookPosted(pair)] == p.journal + full[..2];
      if sc.post == OtherError || sc.status == RaisesBefore {
        k := 2;
      } else {
        k := 3;
        assert full[..3] == full;
        assert p.journal + full[..2] + [full[2]] == p.journal + full;
      }
    }
  }

  /** Two tables say the same about a pair. */
  predicate SameFor(pair: CatZone, l: map<CatZone, real>, m: map<CatZone, real>) {
    (pair in l <==> pair in m) && (pair in l ==> l[pair] == m[pair])
  }

  /**
    Whether a second alert is due depends on whether the first fire got as far as its mark: only then does the
    cooldown hold it back.
  */
  lemma SecondAlert(cooldown: real, p: Progress, sc1: TrackScript, q: Progress, sc2: TrackScript, pair: CatZone)
    requires !p.raised && !q.raised && ShouldFire(cooldown, p.lastFired, pair, sc1.checked)
    requires sc1.checked <= sc2.checked
    requires SameFor(pair, AlertStep(cooldown, p, pair, sc1).lastFired, q.lastFired)
    ensures ShouldFire(cooldown, q.lastFired, pair, sc2.checked)
            <==> !Completes(sc1) || sc2.checked - sc1.marked >= cooldown
  {
    var k := FireTrace(p, pair, sc1);
  }

  lemma CallingCounts(p: Progress, call: Call, e: Entry, pair: CatZone)
    requires !e.Marked? && !e.WebhookPosted?
    ensures var q := Calling(p, call, e).journal;
            Posts(q, pair) == Posts(p.journal, pair) && Count(q, Mark, pair) == Count(p.journal, Mark, pair)
  {
    PostsMore(p.journal, e, pair);
    CountMore(p.journal, e, Mark, pair);
  }

  lemma CountsOfPost(p: Progress, pair: CatZone, other: CatZone)
    ensures var q := Calling(p, Works, WebhookPosted(pair)).journal;
            && Posts(q, other) == Posts(p.journal, other) + (if pair == other then 1 else 0)
            && Count(q, Mark, other) == Count(p.journal, Mark, other)
  {
    PostsMore(p.journal, WebhookPosted(pair), other);
    CountMore(p.journal, WebhookPosted(pair), Mark, other);
  }

  lemma CountsOfFire(p: Progress, pair: CatZone, sc: TrackScript, other: CatZone)
    requires !p.raised
    ensures var q := Fire(p, pair, sc).journal;
            && Posts(q, other) == Posts(p.journal, other) + (if pair == other && sc.alert == Works then 1 else 0)
            && Count(q, Mark, other) == Count(p.journal, Mark, other)
  {
    CallingCounts(p, sc.alert, AlertStored(pair), other);
    var p1 := Calling(p, sc.alert, AlertStored(pair));
    if !p1.raised {
      CountsOfPost(p1, pair, other);
      var p2 := Calling(p1, Works, WebhookPosted(pair));
      CallingCounts(p2, sc.status, StatusStored(pair, StatusAfter(sc.post)), other);
    }
  }

  /** What an alert adds to the webhook calls and to the marks of any pair. */
  lemma CountsOfAlert(cooldown: real, p: Progress, pair: CatZone, sc: TrackScript, other: CatZone)
    requires !p.raised
    ensures var q, fires := AlertStep(cooldown, p, pair, sc).journal,
                            pair == other && ShouldFire(cooldown, p.lastFired, pair, sc.checked);
            && Posts(q, other) == Posts(p.journal, other) + (if fires && sc.alert == Works then 1 else 0)
            && Count(q, Mark, other) == Count(p.journal, Mark, other) + (if fires && Completes(sc) then 1 else 0)
  {
    if ShouldFire(cooldown, p.lastFired, pair, sc.checked) {
      CountsOfFire(p, pair, sc, other);
      var p1 := Fire(p, pair, sc);
      if !p1.raised {
        var e := Marked(pair, sc.marked);
        PostsMore(p1.journal, e, other);
        CountMore(p1.journal, e, Mark, other);
        CallingCounts(p1.(journal := p1.journal + [e], lastFired := p1.lastFired[pair := sc.marked]), sc.alertNote,
                      AlertNoted(pair), other);
      }
    }
  }

  // ---------- what it does bound ----------

  /** Webhook calls in excess of marks. */
  function Excess(journal: seq<Entry>, pair: CatZone): int {
    Posts(journal, pair) - Count(journal, Mark, pair)
  }

  /** Track n of the frame is the cat of the pair, in its zone. */
  predicate IsAbout(f: Frame, n: nat, pair: CatZone)
    requires n < |f.tracked| == |f.tracks|
  {
    f.tracks[n].cat == Found(pair.0) && FirstZone(f.zones, f.tracked[n].track.centroid) == Some(pair.1)
  }

  /** Processing track n gets as far as deciding whether to fire for the pair. */
  predicate Considers(f: Frame, n: nat, p: Progress, pair: CatZone)
    requires n < |f.tracked| == |f.tracks|
  {
    !p.raised && IsAbout(f, n, pair) && f.tracks[n].detection == Works && f.tracks[n].detectionNote == Works
  }

  /** And then to the webhook: the fire is due and its row is stored. */
  predicate Posting(cooldown: real, f: Frame, n: nat, p: Progress, pair: CatZone)
    requires n < |f.tracked| == |f.tracks|
  {
    Considers(f, n, p, pair) && ShouldFire(cooldown, p.lastFired, pair, f.tracks[n].checked)
    && f.tracks[n].alert == Works
  }

  /** But not to the mark. */
  predicate Stranded(cooldown: real, f: Frame, n: nat, p: Progress, pair: CatZone)
    requires n < |f.tracked| == |f.tracks|
  {
    Posting(cooldown, f, n, p, pair) && !Completes(f.tracks[n])
  }

  lemma ObserveCounts(f: Frame, t: Tracked, cat: CatId, sc: TrackScript, p: Progress, pair: CatZone)
    ensures var q := Observe(f, t, cat, sc, p);
            && Posts(q.journal, pair) == Posts(p.journal, pair)
            && Count(q.journal, Mark, pair) == Count(p.journal, Mark, pair)
            && q.lastFired == p.lastFired
  {
    var e := DetectionOf(f, t, cat);
    CallingCounts(p, sc.detection, e, pair);
    CallingCounts(Calling(p, sc.detection, e), sc.detectionNote, DetectionNoted(cat), pair);
  }

  lemma ReactCounts(cooldown: real, f: Frame, t: Tracked, cat: CatId, sc: TrackScript, p: Progress, pair: CatZone)
    requires !p.raised
    ensures var q := React(cooldown, f, t, cat, sc, p).journal;
            var posting := (cat, FirstZone(f.zones, t.track.centroid)) == (pair.0, Some(pair.1))
                && ShouldFire(cooldown, p.lastFired, pair, sc.checked) && sc.alert == Works;
            && Posts(q, pair) == Posts(p.journal, pair) + (if posting then 1 else 0)
            && Excess(q, pair) == Excess(p.journal, pair) + (if posting && !Completes(sc) then 1 else 0)
  {
    var zone := FirstZone(f.zones, t.track.centroid);
    if zone.Some? {
      CountsOfAlert(cooldown, p, (cat, zone.value), sc, pair);
    }
  }

  /** What processing a track adds to the webhook calls, and to their excess. */
  lemma StepCounts(cooldown: real, f: Frame, n: nat, p: Progress, pair: CatZone)
    requires n < |f.tracked| == |f.tracks|
    ensures var q := StepAt(cooldown, f, n, p).journal;
            && Posts(q, pair) == Posts(p.journal, pair) + (if Posting(cooldown, f, n, p, pair) then 1 else 0)
            && Excess(q, pair) == Excess(p.journal, pair) + (if Stranded(cooldown, f, n, p, pair) then 1 else 0)
  {
    var t, sc := f.tracked[n], f.tracks[n];
    if !p.raised && sc.cat != Lost {
      ObserveCounts(f, t, sc.cat.cat, sc, p, pair);
      var p1 := Observe(f, t, sc.cat.cat, sc, p);
      if !p1.raised {
        ReactCounts(cooldown, f, t, sc.cat.cat, sc, p1, pair);
      }
    }
  }

  function Begin(s: Pipeline.State): Progress {
    Progress(s.journal, s.lastFired, [], false)
  }

  function HowMany(flags: nat -> bool, n: nat): nat {
    if n == 0 then 0 else HowMany(flags, n - 1) + if flags(n - 1) then 1 else 0
  }

  lemma {:induction false} HowManyIsZero(flags: nat -> bool, n: nat)
    ensures HowMany(flags, n) == 0 <==> forall k: nat | k < n :: !flags(k)
  {
    if n > 0 {
      HowManyIsZero(flags, n - 1);
    }
  }

  /** For each track of a frame that begins with `p`, whether it is stranded. */
  function StrandedFlags(cooldown: real, f: Frame, p: Progress, pair: CatZone): nat -> bool
    requires |f.tracked| == |f.tracks|
  {
    (n: nat) => n < |f.tracked| && Stranded(cooldown, f, n, TracksStep(cooldown, f, n, p), pair)
  }

  function StrandedInFrame(cooldown: real, s: Pipeline.State, f: Frame, pair: CatZone): nat
    requires |f.tracked| == |f.tracks|
  {
    if f.opening then HowMany(StrandedFlags(cooldown, f, Begin(s), pair), |f.tracked|) else 0
  }

  /** How many fires for the pair, over a run, were due, stored their row and did not get to their mark. */
  function StrandedFires(cooldown: real, frames: seq<Frame>, pair: CatZone): nat
    requires ValidFrames(frames)
  {
    if frames == [] then 0
    else
      var front, f := frames[..|frames| - 1], frames[|frames| - 1];
      StrandedFires(cooldown, front, pair) + StrandedInFrame(cooldown, Run(cooldown, front), f, pair)
  }

  /** After n tracks of a frame that begins with `p`: the excess has grown by the stranded ones. */
  predicate Counted(cooldown: real, f: Frame, p: Progress, pair: CatZone, n: nat, q: Progress)
    requires |f.tracked| == |f.tracks|
  {
    n <= |f.tracked| && q == TracksStep(cooldown, f, n, p)
    && Excess(q.journal, pair) == Excess(p.journal, pair) + HowMany(StrandedFlags(cooldown, f, p, pair), n)
  }

  lemma StepCounted(cooldown: real, f: Frame, p: Progress, pair: CatZone, n: nat, q: Progress)
    requires n < |f.tracked| == |f.tracks| && Counted(cooldown, f, p, pair, n, q)
    ensures Counted(cooldown, f, p, pair, n + 1, StepAt(cooldown, f, n, q))
  {
    NextTrack(cooldown, f, n, p, q);
    StepCounts(cooldown, f, n, q, pair);
    OneMoreFlag(StrandedFlags(cooldown, f, p, pair), n, Stranded(cooldown, f, n, q, pair));
  }

  lemma OneMoreFlag(flags: nat -> bool, n: nat, flag: bool)
    requires flag == flags(n)
    ensures HowMany(flags, n + 1) == HowMany(flags, n) + if flag then 1 else 0
  {
  }

  lemma TracksExcess(cooldown: real, f: Frame, p: Progress, pair: CatZone)
    requires |f.tracked| == |f.tracks|
    ensures Counted(cooldown, f, p, pair, |f.tracked|, TracksStep(cooldown, f, |f.tracked|, p))
  {
    var q := p;
    for k := 0 to |f.tracked|
      invariant Counted(cooldown, f, p, pair, k, q)
    {
      StepCounted(cooldown, f, p, pair, k, q);
      q := StepAt(cooldown, f, k, q);
    }
  }

  lemma FrameExcess(cooldown: real, s: Pipeline.State, f: Frame, pair: CatZone)
    requires |f.tracked| == |f.tracks|
    ensures Excess(FrameStep(cooldown, s, f).journal, pair)
         == Excess(s.journal, pair) + StrandedInFrame(cooldown, s, f, pair)
  {
    var p := TracksStep(cooldown, f, |f.tracked|, Begin(s));
    TracksExcess(cooldown, f, Begin(s), pair);
    CallingCounts(p, f.publish, Published(p.boxes), pair);
  }

  /** Over any run, the webhook calls for a cat and zone are the cooldown marks and the stranded fires. */
  lemma {:induction false} PostsAreMarks(cooldown: real, frames: seq<Frame>, pair: CatZone)
    requires ValidFrames(frames)
    ensures var journal := Run(cooldown, frames).journal;
            Posts(journal, pair) == Count(journal, Mark, pair) + StrandedFires(cooldown, frames, pair)
  {
    if frames != [] {
      var front := frames[..|frames| - 1];
      PostsAreMarks(cooldown, front, pair);
      FrameExcess(cooldown, Run(cooldown, front), frames[|frames| - 1], pair);
    }
  }

  // ---------- moments of a run ----------

  /** Before track n of frame i of a run, if that is opened. */
  function Moment(cooldown: real, frames: seq<Frame>, i: nat, n: nat): Progress
    requires ValidFrames(frames) && i < |frames| && n <= |frames[i].tracked|
  {
    TracksStep(cooldown, frames[i], n, Begin(Run(cooldown, frames[..i])))
  }

  predicate StrandedAt(cooldown: real, frames: seq<Frame>, i: nat, n: nat, pair: CatZone)
    requires ValidFrames(frames) && i < |frames| && n < |frames[i].tracked|
  {
    frames[i].opening && Stranded(cooldown, frames[i], n, Moment(cooldown, frames, i, n), pair)
  }

  ghost predicate NoneStrandedIn(cooldown: real, frames: seq<Frame>, i: nat, pair: CatZone)
    requires ValidFrames(frames) && i < |frames|
  {
    forall n | 0 <= n < |frames[i].tracked| :: !StrandedAt(cooldown, frames, i, n, pair)
  }

  lemma NoneInFrame(cooldown: real, frames: seq<Frame>, i: nat, pair: CatZone)
    requires ValidFrames(frames) && i < |frames|
    ensures StrandedInFrame(cooldown, Run(cooldown, frames[..i]), frames[i], pair) == 0
            <==> NoneStrandedIn(cooldown, frames, i, pair)
  {
    var f := frames[i];
    var flags := StrandedFlags(cooldown, f, Begin(Run(cooldown, frames[..i])), pair);
    HowManyIsZero(flags, |f.tracked|);
    if f.opening {
      forall n: nat | n < |f.tracked| ensures flags(n) == StrandedAt(cooldown, frames, i, n, pair) {
      }
    }
  }

  lemma StrandedMore(cooldown: real, frames: seq<Frame>, f: Frame, pair: CatZone)
    requires ValidFrames(frames) && |f.tracked| == |f.tracks|
    ensures StrandedFires(cooldown, frames + [f], pair)
         == StrandedFires(cooldown, frames, pair) + StrandedInFrame(cooldown, Run(cooldown, frames), f, pair)
  {
    assert (frames + [f])[..|frames|] == frames;
  }

  lemma OneMoreFrame(cooldown: real, frames: seq<Frame>, k: nat, pair: CatZone)
    requires ValidFrames(frames) && k < |frames|
    ensures var a, b := StrandedFires(cooldown, frames[..k], pair), StrandedFires(cooldown, frames[..k + 1], pair);
            a <= b && (a == b <==> NoneStrandedIn(cooldown, frames, k, pair))
  {
    assert frames[..k + 1] == frames[..k] + [frames[k]];
    StrandedMore(cooldown, frames[..k], frames[k], pair);
    NoneInFrame(cooldown, frames, k, pair);
  }

  /** A count moves at k exactly if `none` does not hold there. */
  ghost predicate MovesUnless(value: nat -> nat, none: nat -> bool, k: nat) {
    value(k) <= value(k + 1) && (value(k) == value(k + 1) <==> none(k))
  }

  lemma {:induction false} StaysZero(value: nat -> nat, none: nat -> bool, n: nat)
    requires value(0) == 0 && forall k: nat | k < n :: MovesUnless(value, none, k)
    ensures value(n) == 0 <==> forall k: nat | k < n :: none(k)
  {
    if n > 0 {
      StaysZero(value, none, n - 1);
      assert MovesUnless(value, none, n - 1);
    }
  }

  lemma NoneStranded(cooldown: real, frames: seq<Frame>, pair: CatZone)
    requires ValidFrames(frames)
    ensures StrandedFires(cooldown, frames, pair) == 0 <==>
            forall i: nat | i < |frames| :: NoneStrandedIn(cooldown, frames, i, pair)
  {
    var value := (k: nat) => if k <= |frames| then StrandedFires(cooldown, frames[..k], pair) else 0;
    var none := (k: nat) => k < |frames| && NoneStrandedIn(cooldown, frames, k, pair);
    forall k: nat | k < |frames| ensures MovesUnless(value, none, k) {
      OneMoreFrame(cooldown, frames, k, pair);
    }
    StaysZero(value, none, |frames|);
    assert frames[..|frames|] == frames;
    assert forall i: nat | i < |frames| :: none(i) == NoneStrandedIn(cooldown, frames, i, pair);
  }

  /** So calls and marks are equally many exactly if no fire of the run is stranded. */
  lemma PostsAreMarksIff(cooldown: real, frames: seq<Frame>, pair: CatZone)
    requires ValidFrames(frames)
    ensures var journal := Run(cooldown, frames).journal;
            Posts(journal, pair) == Count(journal, Mark, pair) <==>
              forall i: nat | i < |frames| :: NoneStrandedIn(cooldown, frames, i, pair)
  {
    PostsAreMarks(cooldown, frames, pair);
    NoneStranded(cooldown, frames, pair);
  }

  // ---------- when a call is made ----------

  lemma {:induction false} LastMarkIsThere(journal: seq<Entry>, pair: CatZone)
    requires pair in LastMarks(journal)
    ensures exists e :: e in journal && e.Marked? && e.pair == pair && e.time == LastMarks(journal)[pair]
  {
    var init, last := journal[..|journal| - 1], journal[|journal| - 1];
    if last.Marked? && last.pair == pair {
      assert last in journal;
    } else {
      LastMarkIsThere(init, pair);
      var e :| e in init && e.Marked? && e.pair == pair && e.time == LastMarks(init)[pair];
      assert e in journal;
    }
  }

  /** Every mark of the pair in the journal is at least the cooldown ago. */
  ghost predicate Rested(cooldown: real, journal: seq<Entry>, pair: CatZone, now: real) {
    forall e | e in journal && e.Marked? && e.pair == pair :: now - e.time >= cooldown
  }

  lemma ShouldFireIffRested(cooldown: real, journal: seq<Entry>, lastFired: map<CatZone, real>, latest: real,
                            pair: CatZone, now: real)
    requires Spaced(cooldown, journal, lastFired, latest)
    ensures ShouldFire(cooldown, lastFired, pair, now) <==> Rested(cooldown, journal, pair, now)
  {
    forall e | e in journal && e.Marked? && e.pair == pair ensures pair in lastFired && e.time <= lastFired[pair] {
      var i :| 0 <= i < |journal| && journal[i] == e;
      MarkedSince(cooldown, journal, i);
    }
    if pair in lastFired {
      LastMarkIsThere(journal, pair);
    }
  }

  lemma MomentSpaced(cooldown: real, frames: seq<Frame>, start: real, i: nat, n: nat)
    requires ValidFrames(frames) && i < |frames| && n <= |frames[i].tracked|
    requires ClockRuns(frames[..i + 1], start)
    ensures var p := Moment(cooldown, frames, i, n);
            Spaced(cooldown, p.journal, p.lastFired, LastReading(frames[i], n, ClockAfter(frames[..i], start)))
  {
    assert frames[..i + 1][..i] == frames[..i];
    RunSpaced(cooldown, frames[..i], start);
    TracksSpaced(cooldown, frames[i], n, Begin(Run(cooldown, frames[..i])), ClockAfter(frames[..i], start));
  }

  /**
    Over any run: when a cat is considered in a zone, and its row can be stored, the webhook is called exactly
    if no mark for them in the journal is less than the cooldown ago.
  */
  lemma PostsIffRested(cooldown: real, frames: seq<Frame>, start: real, i: nat, n: nat, pair: CatZone)
    requires ValidFrames(frames) && i < |frames| && n < |frames[i].tracked| && ClockRuns(frames[..i + 1], start)
    requires Considers(frames[i], n, Moment(cooldown, frames, i, n), pair) && frames[i].tracks[n].alert == Works
    ensures var p, q := Moment(cooldown, frames, i, n), Moment(cooldown, frames, i, n + 1);
            Posts(q.journal, pair) == Posts(p.journal, pair)
              + if Rested(cooldown, p.journal, pair, frames[i].tracks[n].checked) then 1 else 0
  {
    var p, f := Moment(cooldown, frames, i, n), frames[i];
    MomentSpaced(cooldown, frames, start, i, n);
    ShouldFireIffRested(cooldown, p.journal, p.lastFired, LastReading(f, n, ClockAfter(frames[..i], start)), pair,
                        f.tracks[n].checked);
    NextMoment(cooldown, frames, i, n);
    StepCounts(cooldown, f, n, p, pair);
  }

  // ---------- one call after the other ----------

  /** From p to q no call for the pair is taken back, and without a further one the table says the same of it. */
  predicate Follows(p: Progress, q: Progress, pair: CatZone) {
    Posts(p.journal, pair) <= Posts(q.journal, pair)
    && (Posts(p.journal, pair) == Posts(q.journal, pair) ==> SameFor(pair, p.lastFired, q.lastFired))
  }

  lemma FollowsOn(p: Progress, q: Progress, r: Progress, pair: CatZone)
    requires Follows(p, q, pair) && Follows(q, r, pair)
    ensures Follows(p, r, pair)
  {
  }

  lemma AlertFollows(cooldown: real, p: Progress, pair: CatZone, sc: TrackScript, other: CatZone)
    requires !p.raised
    ensures Follows(p, AlertStep(cooldown, p, pair, sc), other)
  {
    CountsOfAlert(cooldown, p, pair, sc, other);
    var k := FireTrace(p, pair, sc);
  }

  lemma StepFollows(cooldown: real, f: Frame, n: nat, p: Progress, pair: CatZone)
    requires n < |f.tracked| == |f.tracks|
    ensures Follows(p, StepAt(cooldown, f, n, p), pair)
  {
    var t, sc := f.tracked[n], f.tracks[n];
    if !p.raised && sc.cat != Lost {
      var cat, zone := sc.cat.cat, FirstZone(f.zones, t.track.centroid);
      ObserveCounts(f, t, cat, sc, p, pair);
      var p1 := Observe(f, t, cat, sc, p);
      if !p1.raised && zone.Some? {
        AlertFollows(cooldown, p1, (cat, zone.value), sc, pair);
      }
    }
  }

  lemma TracksFollow(cooldown: real, f: Frame, m: nat, n: nat, p: Progress, pair: CatZone)
    requires m <= n <= |f.tracked| == |f.tracks|
    ensures Follows(TracksStep(cooldown, f, m, p), TracksStep(cooldown, f, n, p), pair)
  {
    var start := TracksStep(cooldown, f, m, p);
    var inv := (k: nat, q: Progress) => Follows(start, q, pair);
    forall k: nat, q | m <= k < n && inv(k, q) ensures inv(k + 1, StepAt(cooldown, f, k, q)) {
      StepFollows(cooldown, f, k, q, pair);
      FollowsOn(start, q, StepAt(cooldown, f, k, q), pair);
    }
    TracksKeep(cooldown, f, m, n, p, inv);
  }

  /** What is left of a frame. */
  lemma RestFollows(cooldown: real, s: Pipeline.State, f: Frame, m: nat, pair: CatZone)
    requires m <= |f.tracked| == |f.tracks| && f.opening
    ensures Follows(TracksStep(cooldown, f, m, Begin(s)), Begin(FrameStep(cooldown, s, f)), pair)
  {
    var p := TracksStep(cooldown, f, |f.tracked|, Begin(s));
    TracksFollow(cooldown, f, m, |f.tracked|, Begin(s), pair);
    CallingCounts(p, f.publish, Published(p.boxes), pair);
    FollowsOn(TracksStep(cooldown, f, m, Begin(s)), p, Begin(FrameStep(cooldown, s, f)), pair);
  }

  lemma FrameFollows(cooldown: real, s: Pipeline.State, f: Frame, pair: CatZone)
    requires |f.tracked| == |f.tracks|
    ensures Follows(Begin(s), Begin(FrameStep(cooldown, s, f)), pair)
  {
    if f.opening {
      RestFollows(cooldown, s, f, 0, pair);
    }
  }

  lemma {:induction false} FramesFollow(cooldown: real, frames: seq<Frame>, i: nat, j: nat, pair: CatZone)
    requires ValidFrames(frames) && i <= j <= |frames|
    ensures Follows(Begin(Run(cooldown, frames[..i])), Begin(Run(cooldown, frames[..j])), pair)
  {
    if i < j {
      FramesFollow(cooldown, frames, i, j - 1, pair);
      assert frames[..j] == frames[..j - 1] + [frames[j - 1]];
      RunMore(cooldown, frames[..j - 1], frames[j - 1]);
      var s := Run(cooldown, frames[..j - 1]);
      FrameFollows(cooldown, s, frames[j - 1], pair);
      FollowsOn(Begin(Run(cooldown, frames[..i])), Begin(s), Begin(Run(cooldown, frames[..j])), pair);
    }
  }

  /** The moment (i, m) of a run is not after (j, n). */
  predicate NotAfter(frames: seq<Frame>, i: nat, m: nat, j: nat, n: nat) {
    i < |frames| && j < |frames| && m <= |frames[i].tracked| && n <= |frames[j].tracked|
    && (i < j || (i == j && m <= n)) && frames[i].opening && frames[j].opening
  }

  lemma MomentsFollow(cooldown: real, frames: seq<Frame>, i: nat, m: nat, j: nat, n: nat, pair: CatZone)
    requires ValidFrames(frames) && NotAfter(frames, i, m, j, n)
    ensures Follows(Moment(cooldown, frames, i, m), Moment(cooldown, frames, j, n), pair)
  {
    if i == j {
      TracksFollow(cooldown, frames[i], m, n, Begin(Run(cooldown, frames[..i])), pair);
    } else {
      var p, q := Moment(cooldown, frames, i, m), Moment(cooldown, frames, j, n);
      var next, last := Begin(Run(cooldown, frames[..i + 1])), Begin(Run(cooldown, frames[..j]));
      EndOfFrame(cooldown, frames, i, m, pair);
      FramesFollow(cooldown, frames, i + 1, j, pair);
      TracksFollow(cooldown, frames[j], 0, n, last, pair);
      FollowsOn(p, next, last, pair);
      FollowsOn(p, last, q, pair);
    }
  }

  lemma EndOfFrame(cooldown: real, frames: seq<Frame>, i: nat, m: nat, pair: CatZone)
    requires ValidFrames(frames) && i < |frames| && m <= |frames[i].tracked| && frames[i].opening
    ensures Follows(Moment(cooldown, frames, i, m), Begin(Run(cooldown, frames[..i + 1])), pair)
  {
    RestFollows(cooldown, Run(cooldown, frames[..i]), frames[i], m, pair);
    RunNext(cooldown, frames, i);
  }

  lemma RunNext(cooldown: real, frames: seq<Frame>, i: nat)
    requires ValidFrames(frames) && i < |frames|
    ensures Run(cooldown, frames[..i + 1]) == FrameStep(cooldown, Run(cooldown, frames[..i]), frames[i])
  {
    assert frames[..i + 1] == frames[..i] + [frames[i]];
    RunMore(cooldown, frames[..i], frames[i]);
  }

  /**
    Over any run: a cat is reported at track m of frame i, and not again until it is considered once more, at
    track n of frame j, where the row can be stored. Then it is reported again exactly if the first fire did
    not complete or the cooldown, from its mark, is over.
  */
  lemma SecondPostIff(cooldown: real, frames: seq<Frame>, i: nat, m: nat, j: nat, n: nat, pair: CatZone)
    requires ValidFrames(frames) && NotAfter(frames, i, m + 1, j, n) && n < |frames[j].tracked|
    requires Posting(cooldown, frames[i], m, Moment(cooldown, frames, i, m), pair)
    requires Considers(frames[j], n, Moment(cooldown, frames, j, n), pair) && frames[j].tracks[n].alert == Works
    requires var p, q := Moment(cooldown, frames, i, m + 1), Moment(cooldown, frames, j, n);
             Posts(p.journal, pair) == Posts(q.journal, pair)
    requires frames[i].tracks[m].checked <= frames[j].tracks[n].checked
    ensures var q, r := Moment(cooldown, frames, j, n), Moment(cooldown, frames, j, n + 1);
            var again := !Completes(frames[i].tracks[m])
                || frames[j].tracks[n].checked - frames[i].tracks[m].marked >= cooldown;
            Posts(r.journal, pair) == Posts(q.journal, pair) + if again then 1 else 0
  {
    var p, q := Moment(cooldown, frames, i, m), Moment(cooldown, frames, j, n);
    MomentsFollow(cooldown, frames, i, m + 1, j, n, pair);
    NextMoment(cooldown, frames, i, m);
    NextMoment(cooldown, frames, j, n);
    SecondStep(cooldown, frames[i], m, p, frames[j], n, q, pair);
  }

  lemma NextMoment(cooldown: real, frames: seq<Frame>, i: nat, n: nat)
    requires ValidFrames(frames) && i < |frames| && n < |frames[i].tracked|
    ensures Moment(cooldown, frames, i, n + 1) == StepAt(cooldown, frames[i], n, Moment(cooldown, frames, i, n))
  {
    NextTrack(cooldown, frames[i], n, Begin(Run(cooldown, frames[..i])), Moment(cooldown, frames, i, n));
  }

  lemma SecondStep(cooldown: real, f: Frame, m: nat, p: Progress, g: Frame, n: nat, q: Progress, pair: CatZone)
    requires m < |f.tracked| == |f.tracks| && n < |g.tracked| == |g.tracks|
    requires Posting(cooldown, f, m, p, pair) && Considers(g, n, q, pair) && g.tracks[n].alert == Works
    requires Follows(StepAt(cooldown, f, m, p), q, pair)
    requires Posts(StepAt(cooldown, f, m, p).journal, pair) == Posts(q.journal, pair)
    requires f.tracks[m].checked <= g.tracks[n].checked
    ensures var again := !Completes(f.tracks[m]) || g.tracks[n].checked - f.tracks[m].marked >= cooldown;
            Posts(StepAt(cooldown, g, n, q).journal, pair) == Posts(q.journal, pair) + if again then 1 else 0
  {
    ConsideredStep(cooldown, f, m, p, pair);
    SecondAlert(cooldown, Observed(f, m, p), f.tracks[m], q, g.tracks[n], pair);
    StepCounts(cooldown, g, n, q, pair);
  }

  /** Once the detection of track n has been stored. */
  function Observed(f: Frame, n: nat, p: Progress): Progress
    requires n < |f.tracked| == |f.tracks| && f.tracks[n].cat != Lost
  {
    Observe(f, f.tracked[n], f.tracks[n].cat.cat, f.tracks[n], p)
  }

  lemma ConsideredStep(cooldown: real, f: Frame, n: nat, p: Progress, pair: CatZone)
    requires n < |f.tracked| == |f.tracks| && Considers(f, n, p, pair)
    ensures var p1 := Observed(f, n, p);
            && !p1.raised && p1.lastFired == p.lastFired
            && StepAt(cooldown, f, n, p).lastFired == AlertStep(cooldown, p1, pair, f.tracks[n]).lastFired
  {
  }

  // ---------- any window of any run ----------

  /** Marks of the pair outside a window. */
  function MarksOutside(journal: seq<Entry>, pair: CatZone, from: real, to: real): nat {
    if journal == [] then 0
    else
      var e := journal[|journal| - 1];
      MarksOutside(journal[..|journal| - 1], pair, from, to)
      + if Is(e, Mark, pair) && !(from <= e.time <= to) then 1 else 0
  }

  lemma OutsideMore(journal: seq<Entry>, e: Entry, pair: CatZone, from: real, to: real)
    requires e.Marked? ==> from <= e.time <= to
    ensures MarksOutside(journal + [e], pair, from, to) == MarksOutside(journal, pair, from, to)
  {
    assert (journal + [e])[..|journal|] == journal;
  }

  lemma {:induction false} InsideAndOutside(journal: seq<Entry>, pair: CatZone, from: real, to: real)
    ensures Count(journal, Mark, pair) == MarksBetween(journal, pair, from, to) + MarksOutside(journal, pair, from, to)
  {
    if journal != [] {
      InsideAndOutside(journal[..|journal| - 1], pair, from, to);
    }
  }

  predicate ReadingsWithin(f: Frame, from: real, to: real) {
    forall sc | sc in f.tracks :: from <= sc.marked <= to
  }

  lemma CallingOutside(p: Progress, call: Call, e: Entry, pair: CatZone, from: real, to: real)
    requires !e.Marked?
    ensures MarksOutside(Calling(p, call, e).journal, pair, from, to) == MarksOutside(p.journal, pair, from, to)
  {
    OutsideMore(p.journal, e, pair, from, to);
  }

  lemma FireOutside(p: Progress, pair: CatZone, sc: TrackScript, other: CatZone, from: real, to: real)
    ensures MarksOutside(Fire(p, pair, sc).journal, other, from, to) == MarksOutside(p.journal, other, from, to)
  {
    CallingOutside(p, sc.alert, AlertStored(pair), other, from, to);
    var p1 := Calling(p, sc.alert, AlertStored(pair));
    if !p1.raised {
      CallingOutside(p1, Works, WebhookPosted(pair), other, from, to);
      var p2 := Calling(p1, Works, WebhookPosted(pair));
      CallingOutside(p2, sc.status, StatusStored(pair, StatusAfter(sc.post)), other, from, to);
    }
  }

  lemma AlertOutside(cooldown: real, p: Progress, pair: CatZone, sc: TrackScript, other: CatZone, from: real, to: real)
    requires from <= sc.marked <= to
    ensures MarksOutside(AlertStep(cooldown, p, pair, sc).journal, other, from, to)
         == MarksOutside(p.journal, other, from, to)
  {
    FireOutside(p, pair, sc, other, from, to);
    var p1 := Fire(p, pair, sc);
    if ShouldFire(cooldown, p.lastFired, pair, sc.checked) && !p1.raised {
      var e := Marked(pair, sc.marked);
      OutsideMore(p1.journal, e, other, from, to);
      CallingOutside(p1.(journal := p1.journal + [e], lastFired := p1.lastFired[pair := sc.marked]), sc.alertNote,
                     AlertNoted(pair), other, from, to);
    }
  }

  lemma StepOutside(cooldown: real, f: Frame, n: nat, p: Progress, pair: CatZone, from: real, to: real)
    requires n < |f.tracked| == |f.tracks| && from <= f.tracks[n].marked <= to
    ensures MarksOutside(StepAt(cooldown, f, n, p).journal, pair, from, to) == MarksOutside(p.journal, pair, from, to)
  {
    var t, sc := f.tracked[n], f.tracks[n];
    if !p.raised && sc.cat != Lost {
      var cat, zone := sc.cat.cat, FirstZone(f.zones, t.track.centroid);
      var e := DetectionOf(f, t, cat);
      CallingOutside(p, sc.detection, e, pair, from, to);
      CallingOutside(Calling(p, sc.detection, e), sc.detectionNote, DetectionNoted(cat), pair, from, to);
      if zone.Some? {
        AlertOutside(cooldown, Observe(f, t, cat, sc, p), (cat, zone.value), sc, pair, from, to);
      }
    }
  }

  lemma FrameOutside(cooldown: real, s: Pipeline.State, f: Frame, pair: CatZone, from: real, to: real)
    requires |f.tracked| == |f.tracks| && ReadingsWithin(f, from, to)
    ensures MarksOutside(FrameStep(cooldown, s, f).journal, pair, from, to) == MarksOutside(s.journal, pair, from, to)
  {
    TracksOutside(cooldown, f, Begin(s), pair, from, to);
    var p := TracksStep(cooldown, f, |f.tracked|, Begin(s));
    CallingOutside(p, f.publish, Published(p.boxes), pair, from, to);
  }

  lemma TracksOutside(cooldown: real, f: Frame, p: Progress, pair: CatZone, from: real, to: real)
    requires |f.tracked| == |f.tracks| && ReadingsWithin(f, from, to)
    ensures MarksOutside(TracksStep(cooldown, f, |f.tracked|, p).journal, pair, from, to)
         == MarksOutside(p.journal, pair, from, to)
  {
    var inv := (k: nat, q: Progress) =>
      MarksOutside(q.journal, pair, from, to) == MarksOutside(p.journal, pair, from, to);
    forall k: nat, q | k < |f.tracked| && inv(k, q) ensures inv(k + 1, StepAt(cooldown, f, k, q)) {
      assert f.tracks[k] in f.tracks;
      StepOutside(cooldown, f, k, q, pair, from, to);
    }
    TracksKeep(cooldown, f, 0, |f.tracked|, p, inv);
  }

  /** The readings of the clock for these frames are in the window. */
  ghost predicate AllWithin(frames: seq<Frame>, from: real, to: real) {
    forall f | f in frames :: ReadingsWithin(f, from, to)
  }

  lemma RunMore(cooldown: real, frames: seq<Frame>, f: Frame)
    requires ValidFrames(frames) && |f.tracked| == |f.tracks|
    ensures Run(cooldown, frames + [f]) == FrameStep(cooldown, Run(cooldown, frames), f)
  {
    assert (frames + [f])[..|frames|] == frames;
  }

  lemma {:induction false} NothingOutside(cooldown: real, before: seq<Frame>, during: seq<Frame>, pair: CatZone,
                                          from: real, to: real)
    requires ValidFrames(before) && ValidFrames(during) && AllWithin(during, from, to)
    ensures MarksOutside(Run(cooldown, before + during).journal, pair, from, to)
         == MarksOutside(Run(cooldown, before).journal, pair, from, to)
  {
    if during == [] {
      assert before + during == before;
    } else {
      var init, f := during[..|during| - 1], during[|during| - 1];
      NothingOutside(cooldown, before, init, pair, from, to);
      assert before + during == before + init + [f];
      RunMore(cooldown, before + init, f);
      FrameOutside(cooldown, Run(cooldown, before + init), f, pair, from, to);
    }
  }

  /** In whatever run they come, frames in a window of length T make at most floor(T / cooldown) + 1 marks. */
  lemma MarksPerWindow(cooldown: real, before: seq<Frame>, during: seq<Frame>, start: real, pair: CatZone,
                       from: real, length: real)
    requires ValidFrames(before) && ValidFrames(during) && ClockRuns(before + during, start)
    requires cooldown > 0.0 && length >= 0.0 && AllWithin(during, from, from + length)
    ensures Count(Run(cooldown, before + during).journal, Mark, pair) - Count(Run(cooldown, before).journal, Mark, pair)
         <= (length / cooldown).Floor + 1
  {
    AlertsPerWindow(cooldown, before + during, start, pair, from, length);
    NothingOutside(cooldown, before, during, pair, from, from + length);
    MarksGained(Run(cooldown, before).journal, Run(cooldown, before + during).journal, pair, from, from + length,
                (length / cooldown).Floor + 1);
  }

  lemma MarksGained(a: seq<Entry>, b: seq<Entry>, pair: CatZone, from: real, to: real, bound: int)
    requires MarksOutside(a, pair, from, to) == MarksOutside(b, pair, from, to)
    requires MarksBetween(b, pair, from, to) <= bound
    ensures Count(b, Mark, pair) - Count(a, Mark, pair) <= bound
  {
    InsideAndOutside(a, pair, from, to);
    InsideAndOutside(b, pair, from, to);
  }

  /**
    And at most that many webhook calls, plus one for each fire stranded in it, whatever happened before the
    window.
  */
  lemma PostsPerWindow(cooldown: real, before: seq<Frame>, during: seq<Frame>, start: real, pair: CatZone,
                       from: real, length: real)
    requires ValidFrames(before) && ValidFrames(during) && ClockRuns(before + during, start)
    requires cooldown > 0.0 && length >= 0.0 && AllWithin(during, from, from + length)
    ensures var stranded := StrandedFires(cooldown, before + during, pair) - StrandedFires(cooldown, before, pair);
            Posts(Run(cooldown, before + during).journal, pair) - Posts(Run(cooldown, before).journal, pair)
            <= (length / cooldown).Floor + 1 + stranded
  {
    MarksPerWindow(cooldown, before, during, start, pair, from, length);
    PostsAreMarks(cooldown, before, pair);
    PostsAreMarks(cooldown, before + during, pair);
  }

  /** Every fire of the pair in this frame completes, if it comes to it. */
  predicate AllComplete(f: Frame, pair: CatZone)
    requires |f.tracked| == |f.tracks|
  {
    forall n | 0 <= n < |f.tracked| :: CompletesAt(f, n, pair)
  }

  predicate CompletesAt(f: Frame, n: nat, pair: CatZone)
    requires n < |f.tracked| == |f.tracks|
  {
    IsAbout(f, n, pair) ==> Completes(f.tracks[n])
  }

  lemma CompleteFrame(cooldown: real, s: Pipeline.State, f: Frame, pair: CatZone)
    requires |f.tracked| == |f.tracks| && AllComplete(f, pair)
    ensures StrandedInFrame(cooldown, s, f, pair) == 0
  {
    var flags := StrandedFlags(cooldown, f, Begin(s), pair);
    HowManyIsZero(flags, |f.tracked|);
    forall k: nat | k < |f.tracked| ensures !flags(k) {
      assert CompletesAt(f, k, pair);
    }
  }

  lemma {:induction false} NothingStranded(cooldown: real, before: seq<Frame>, during: seq<Frame>, pair: CatZone)
    requires ValidFrames(before) && ValidFrames(during)
    requires forall f | f in during :: AllComplete(f, pair)
    ensures StrandedFires(cooldown, before + during, pair) == StrandedFires(cooldown, before, pair)
  {
    if during == [] {
      assert before + during == before;
    } else {
      var init, f := during[..|during| - 1], during[|during| - 1];
      NothingStranded(cooldown, before, init, pair);
      assert before + during == before + init + [f];
      StrandedMore(cooldown, before + init, f, pair);
      CompleteFrame(cooldown, Run(cooldown, before + init), f, pair);
    }
  }

  /** So where every fire completes, the cooldown does bound the webhook calls of any window. */
  lemma PostsPerWindowIfComplete(cooldown: real, before: seq<Frame>, during: seq<Frame>, start: real, pair: CatZone,
                                 from: real, length: real)
    requires ValidFrames(before) && ValidFrames(during) && ClockRuns(before + during, start)
    requires cooldown > 0.0 && length >= 0.0 && AllWithin(during, from, from + length)
    requires forall f | f in during :: AllComplete(f, pair)
    ensures Posts(Run(cooldown, before + during).journal, pair) - Posts(Run(cooldown, before).journal, pair)
         <= (length / cooldown).Floor + 1
  {
    PostsPerWindow(cooldown, before, during, start, pair, from, length);
    NothingStranded(cooldown, before, during, pair);
  }

  // ---------- fires that do not complete ----------

  /** A frame with one cat in a zone; the webhook takes the call, but storing that raises. */
  function FailingFrame(now: real): Frame {
    var square: seq<Point> := [(0.0, 0.0), (1.0, 0.0), (1.0, 1.0), (0.0, 1.0)];
    var box := TrackerModel.Box(0.0, 0.0, 2.0, 2.0);
    Frame(true, [Tracked(1, TrackerModel.Track((1.0, 1.0), box, 0))], [], [Zone(7, square)],
          [TrackScript(Found(3), Works, Works, now, Works, Accepted, RaisesBefore, now, Works)], true, Works)
  }

  lemma FailingFramePosts(cooldown: real, s: Pipeline.State, now: real)
    requires s.lastFired == map[]
    ensures var t := FrameStep(cooldown, s, FailingFrame(now));
            t.lastFired == map[] && Posts(t.journal, (3, 7)) == Posts(s.journal, (3, 7)) + 1
  {
    var f := FailingFrame(now);
    RectangleIsHalfOpen((1.0, 1.0), 0.0, 0.0, 1.0, 1.0);
    assert Ring(f.tracked[0].track.centroid, f.zones[0].points);
    assert FirstZone(f.zones, f.tracked[0].track.centroid) == Some(7);
    var p := Progress(s.journal, s.lastFired, [], false);
    assert TracksStep(cooldown, f, 0, p) == p;
    assert TracksStep(cooldown, f, 1, p) == TrackStep(cooldown, f, f.tracked[0], f.tracks[0], p);
    var e := DetectionOf(f, f.tracked[0], 3);
    var p2 := p.(journal := p.journal + [e] + [DetectionNoted(3)]);
    assert TracksStep(cooldown, f, 1, p) == AlertStep(cooldown, p2, (3, 7), f.tracks[0]);
    CountsOfAlert(cooldown, p2, (3, 7), f.tracks[0], (3, 7));
    PostsMore(p.journal, e, (3, 7));
    PostsMore(p.journal + [e], DetectionNoted(3), (3, 7));
  }

  /** So with calls failing there is no bound on the webhook calls made at one instant. */
  lemma {:induction false} WebhookCallsUnbounded(cooldown: real, now: real, n: nat)
    ensures var frames := seq(n, _ => FailingFrame(now));
            && ValidFrames(frames)
            && Run(cooldown, frames).lastFired == map[]
            && Posts(Run(cooldown, frames).journal, (3, 7)) == n
  {
    var frames := seq(n, _ => FailingFrame(now));
    if n > 0 {
      WebhookCallsUnbounded(cooldown, now, n - 1);
      assert frames[..n - 1] == seq(n - 1, _ => FailingFrame(now));
      FailingFramePosts(cooldown, Run(cooldown, frames[..n - 1]), now);
    }
  }

  // ---------- the published frame ----------

  function Detections(journal: seq<Entry>): nat {
    if journal == [] then 0
    else Detections(journal[..|journal| - 1]) + if journal[|journal| - 1].DetectionStored? then 1 else 0
  }

  lemma DetectionsMore(journal: seq<Entry>, e: Entry)
    ensures Detections(journal + [e]) == Detections(journal) + if e.DetectionStored? then 1 else 0
  {
    assert (journal + [e])[..|journal|] == journal;
  }

  /** Entries from index `from` on: only what processing tracks writes. */
  ghost predicate Extends(journal: seq<Entry>, more: seq<Entry>) {
    journal <= more && forall i | |journal| <= i < |more| :: !more[i].Published?
  }

  lemma CallingExtends(journal: seq<Entry>, p: Progress, call: Call, e: Entry)
    requires Extends(journal, p.journal) && !e.Published?
    ensures Extends(journal, Calling(p, call, e).journal)
    ensures p.journal <= Calling(p, call, e).journal
    ensures !e.DetectionStored? ==> Detections(Calling(p, call, e).journal) == Detections(p.journal)
  {
    DetectionsMore(p.journal, e);
  }

  lemma FireExtends(journal: seq<Entry>, p: Progress, pair: CatZone, sc: TrackScript)
    requires Extends(journal, p.journal)
    ensures var q := Fire(p, pair, sc);
            Extends(journal, q.journal) && p.journal <= q.journal && Detections(q.journal) == Detections(p.journal)
  {
    CallingExtends(journal, p, sc.alert, AlertStored(pair));
    var p1 := Calling(p, sc.alert, AlertStored(pair));
    CallingExtends(journal, p1, Works, WebhookPosted(pair));
    var p2 := Calling(p1, Works, WebhookPosted(pair));
    CallingExtends(journal, p2, sc.status, StatusStored(pair, StatusAfter(sc.post)));
  }

  lemma AlertExtends(cooldown: real, journal: seq<Entry>, p: Progress, pair: CatZone, sc: TrackScript)
    requires Extends(journal, p.journal)
    ensures var q := AlertStep(cooldown, p, pair, sc);
            Extends(journal, q.journal) && p.journal <= q.journal && Detections(q.journal) == Detections(p.journal)
  {
    FireExtends(journal, p, pair, sc);
    var p1 := Fire(p, pair, sc);
    if ShouldFire(cooldown, p.lastFired, pair, sc.checked) && !p1.raised {
      CallingExtends(journal, p1, Works, Marked(pair, sc.marked));
      var p2 := p1.(journal := p1.journal + [Marked(pair, sc.marked)], lastFired := p1.lastFired[pair := sc.marked]);
      CallingExtends(journal, p2, sc.alertNote, AlertNoted(pair));
    }
  }

  /** The box of a track, and the row stored for it in this frame. */
  ghost predicate BoxOf(f: Frame, n: nat, box: Drawn, journal: seq<Entry>, from: nat)
    requires n < |f.tracked| == |f.tracks|
  {
    var t := f.tracked[n];
    && box.bbox == t.track.bbox && box.track == t.id && f.tracks[n].cat == Found(box.cat)
    && (box.danger <==> exists i | 0 <= i < |f.zones| :: Ring(t.track.centroid, f.zones[i].points))
    && exists j | from <= j < |journal| :: IsRow(journal[j], f, n, box)
  }

  /** The row is for the same track and cat, says the same, and has the zone and the confidence. */
  ghost predicate IsRow(e: Entry, f: Frame, n: nat, box: Drawn)
    requires n < |f.tracked|
  {
    && e.DetectionStored? && e.track == box.track && e.cat == box.cat && e.danger == box.danger
    && IsFirstZone(f.zones, f.tracked[n].track.centroid, e.zone)
    && IsConfidence(f.raw, f.tracked[n].track.bbox, e.confidence)
  }

  lemma ObserveRow(f: Frame, n: nat, cat: CatId, sc: TrackScript, p: Progress, journal: seq<Entry>)
    requires n < |f.tracked| && !p.raised && Extends(journal, p.journal)
    ensures var q := Observe(f, f.tracked[n], cat, sc, p);
            && Extends(journal, q.journal) && p.journal <= q.journal && q.boxes == p.boxes
            && (!q.raised ==>
                  && Detections(q.journal) == Detections(p.journal) + 1
                  && |p.journal| < |q.journal| && q.journal[|p.journal|] == DetectionOf(f, f.tracked[n], cat))
  {
    var e := DetectionOf(f, f.tracked[n], cat);
    CallingExtends(journal, p, sc.detection, e);
    DetectionsMore(p.journal, e);
    CallingExtends(journal, Calling(p, sc.detection, e), sc.detectionNote, DetectionNoted(cat));
  }

  lemma ReactDraws(cooldown: real, f: Frame, n: nat, cat: CatId, sc: TrackScript, p: Progress, journal: seq<Entry>)
    requires n < |f.tracked| && !p.raised && Extends(journal, p.journal)
    ensures var t, q := f.tracked[n], React(cooldown, f, f.tracked[n], cat, sc, p);
            && Extends(journal, q.journal) && p.journal <= q.journal && Detections(q.journal) == Detections(p.journal)
            && (!q.raised ==>
                  q.boxes == p.boxes + [Drawn(t.track.bbox, t.id, cat, FirstZone(f.zones, t.track.centroid).Some?)])
  {
    var zone := FirstZone(f.zones, f.tracked[n].track.centroid);
    if zone.Some? {
      AlertExtends(cooldown, journal, p, (cat, zone.value), sc);
      AlertKeepsBoxes(cooldown, p, (cat, zone.value), sc);
    }
  }

  lemma TrackDrawn(cooldown: real, f: Frame, n: nat, p: Progress, journal: seq<Entry>)
    requires n < |f.tracked| == |f.tracks| && !p.raised && Extends(journal, p.journal)
    ensures var q := TrackStep(cooldown, f, f.tracked[n], f.tracks[n], p);
            && Extends(journal, q.journal) && p.journal <= q.journal
            && (!q.raised ==>
                  && |q.boxes| == |p.boxes| + 1 && q.boxes == p.boxes + [q.boxes[|p.boxes|]]
                  && BoxOf(f, n, q.boxes[|p.boxes|], q.journal, |journal|)
                  && Detections(q.journal) == Detections(p.journal) + 1)
  {
    var t, sc := f.tracked[n], f.tracks[n];
    if sc.cat != Lost {
      var cat := sc.cat.cat;
      ObserveRow(f, n, cat, sc, p, journal);
      var p1 := Observe(f, t, cat, sc, p);
      if !p1.raised {
        ReactDraws(cooldown, f, n, cat, sc, p1, journal);
        var q := React(cooldown, f, t, cat, sc, p1);
        if !q.raised {
          DrawnFromRow(f, n, cat, q.journal, |journal|, |p.journal|);
        }
      }
    }
  }

  lemma DrawnFromRow(f: Frame, n: nat, cat: CatId, journal: seq<Entry>, from: nat, j: nat)
    requires n < |f.tracked| == |f.tracks| && f.tracks[n].cat == Found(cat)
    requires from <= j < |journal| && journal[j] == DetectionOf(f, f.tracked[n], cat)
    ensures var t := f.tracked[n];
            BoxOf(f, n, Drawn(t.track.bbox, t.id, cat, FirstZone(f.zones, t.track.centroid).Some?), journal, from)
  {
    var t := f.tracked[n];
    FirstConfidenceIs(f.raw, t.track.bbox);
    assert IsRow(journal[j], f, n, Drawn(t.track.bbox, t.id, cat, FirstZone(f.zones, t.track.centroid).Some?));
  }

  lemma AlertKeepsBoxes(cooldown: real, p: Progress, pair: CatZone, sc: TrackScript)
    ensures AlertStep(cooldown, p, pair, sc).boxes == p.boxes
  {
  }

  lemma BoxStays(f: Frame, n: nat, box: Drawn, before: seq<Entry>, after: seq<Entry>, from: nat)
    requires n < |f.tracked| == |f.tracks| && before <= after && BoxOf(f, n, box, before, from)
    ensures BoxOf(f, n, box, after, from)
  {
    var j :| from <= j < |before| && IsRow(before[j], f, n, box);
    assert after[j] == before[j];
  }

  ghost predicate AllDrawn(f: Frame, n: nat, p: Progress, journal: seq<Entry>)
    requires n <= |f.tracked| == |f.tracks|
  {
    && |p.boxes| == n
    && (forall k | 0 <= k < n :: BoxOf(f, k, p.boxes[k], p.journal, |journal|))
    && Detections(p.journal) == Detections(journal) + n
  }

  lemma AllDrawnMore(f: Frame, n: nat, p: Progress, q: Progress, journal: seq<Entry>, box: Drawn)
    requires n < |f.tracked| == |f.tracks| && AllDrawn(f, n, p, journal)
    requires q.boxes == p.boxes + [box] && p.journal <= q.journal && Detections(q.journal) == Detections(p.journal) + 1
    requires BoxOf(f, n, box, q.journal, |journal|)
    ensures AllDrawn(f, n + 1, q, journal)
  {
    forall k | 0 <= k < n ensures BoxOf(f, k, q.boxes[k], q.journal, |journal|) {
      BoxStays(f, k, p.boxes[k], p.journal, q.journal, |journal|);
    }
  }

  ghost predicate DrawnSoFar(f: Frame, n: nat, p: Progress, journal: seq<Entry>)
    requires n <= |f.tracked| == |f.tracks|
  {
    Extends(journal, p.journal) && (!p.raised ==> AllDrawn(f, n, p, journal))
  }

  lemma StepDrawn(cooldown: real, f: Frame, n: nat, p: Progress, journal: seq<Entry>)
    requires n < |f.tracked| == |f.tracks| && DrawnSoFar(f, n, p, journal)
    ensures DrawnSoFar(f, n + 1, StepAt(cooldown, f, n, p), journal)
  {
    if !p.raised {
      TrackDrawn(cooldown, f, n, p, journal);
      var q := TrackStep(cooldown, f, f.tracked[n], f.tracks[n], p);
      if !q.raised {
        AllDrawnMore(f, n, p, q, journal, q.boxes[|p.boxes|]);
      }
    }
  }

  lemma TracksDrawn(cooldown: real, f: Frame, n: nat, s: Pipeline.State)
    requires n <= |f.tracked| == |f.tracks|
    ensures DrawnSoFar(f, n, TracksStep(cooldown, f, n, Progress(s.journal, s.lastFired, [], false)), s.journal)
  {
    var inv := (k: nat, q: Progress) => k <= n && DrawnSoFar(f, k, q, s.journal);
    forall k: nat, q | k < n && inv(k, q) ensures inv(k + 1, StepAt(cooldown, f, k, q)) {
      StepDrawn(cooldown, f, k, q, s.journal);
    }
    TracksKeep(cooldown, f, 0, n, Progress(s.journal, s.lastFired, [], false), inv);
  }

  /**
    A frame is published only if nothing raised, as the frame's last entry. It then has one box for each
    live track, seen in this frame or not; the box is dangerous iff some zone contains the track's
    centroid; and the frame stored exactly one row for each, which says the same.
  */
  lemma PublishedFrame(cooldown: real, s: Pipeline.State, f: Frame, j: nat)
    requires |f.tracked| == |f.tracks|
    requires var t := FrameStep(cooldown, s, f).journal; |s.journal| <= j < |t| && t[j].Published?
    ensures var t := FrameStep(cooldown, s, f).journal;
            && j == |t| - 1
            && |t[j].boxes| == |f.tracked|
            && (forall n | 0 <= n < |f.tracked| :: BoxOf(f, n, t[j].boxes[n], t, |s.journal|))
            && Detections(t) == Detections(s.journal) + |f.tracked|
  {
    var p := TracksStep(cooldown, f, |f.tracked|, Progress(s.journal, s.lastFired, [], false));
    TracksDrawn(cooldown, f, |f.tracked|, s);
    var t := FrameStep(cooldown, s, f).journal;
    assert t == p.journal + [Published(p.boxes)];
    DetectionsMore(p.journal, Published(p.boxes));
    forall n | 0 <= n < |f.tracked| ensures BoxOf(f, n, p.boxes[n], t, |s.journal|) {
      BoxStays(f, n, p.boxes[n], p.journal, t, |s.journal|);
    }
  }

  /** The tracks handed to the pipeline are those of the tracker's table, each once. */
  ghost predicate Lists(tracked: seq<Tracked>, objects: map<int, TrackerModel.Track>) {
    && (forall i, j | 0 <= i < j < |tracked| :: tracked[i].id != tracked[j].id)
    && (forall i | 0 <= i < |tracked| :: tracked[i].id in objects && tracked[i].track == objects[tracked[i].id])
    && (forall id | id in objects :: exists i | 0 <= i < |tracked| :: tracked[i].id == id)
  }

  /** So a published frame shows every live track of the tracker exactly once, where the tracker has it. */
  lemma EveryLiveTrackDrawnOnce(cooldown: real, s: Pipeline.State, f: Frame, j: nat,
                                objects: map<int, TrackerModel.Track>, id: int) returns (n: nat)
    requires |f.tracked| == |f.tracks| && Lists(f.tracked, objects) && id in objects
    requires var t := FrameStep(cooldown, s, f).journal; |s.journal| <= j < |t| && t[j].Published?
    ensures var boxes := FrameStep(cooldown, s, f).journal[j].boxes;
            && n < |boxes| && boxes[n].track == id && boxes[n].bbox == objects[id].bbox
            && (forall m | 0 <= m < |boxes| && boxes[m].track == id :: m == n)
  {
    PublishedFrame(cooldown, s, f, j);
    var boxes := FrameStep(cooldown, s, f).journal[j].boxes;
    n :| 0 <= n < |f.tracked| && f.tracked[n].id == id;
    forall m | 0 <= m < |boxes| ensures boxes[m].track == f.tracked[m].id && boxes[m].bbox == f.tracked[m].track.bbox {
      assert BoxOf(f, m, boxes[m], FrameStep(cooldown, s, f).journal, |s.journal|);
    }
  }

  lemma {:induction false} ListedOnce(tracked: seq<Tracked>, objects: map<int, TrackerModel.Track>)
    requires Lists(tracked, objects)
    ensures |tracked| == |objects|
  {
    var ids := set i | 0 <= i < |tracked| :: tracked[i].id;
    forall id ensures id in ids <==> id in objects.Keys {}
    assert ids == objects.Keys;
    DistinctCount(tracked);
  }

  lemma {:induction false} DistinctCount(tracked: seq<Tracked>)
    requires forall i, j | 0 <= i < j < |tracked| :: tracked[i].id != tracked[j].id
    ensures |set i | 0 <= i < |tracked| :: tracked[i].id| == |tracked|
  {
    var ids := set i | 0 <= i < |tracked| :: tracked[i].id;
    if tracked == [] {
      assert ids == {};
    } else {
      var n := |tracked| - 1;
      var front := tracked[..n];
      var frontIds := set i | 0 <= i < |front| :: front[i].id;
      DistinctCount(front);
      forall id ensures id in ids <==> id in frontIds + {tracked[n].id} {
        if id in frontIds {
          var i :| 0 <= i < n && front[i].id == id;
          assert tracked[i].id == id;
        }
        if id in ids && id != tracked[n].id {
          var i :| 0 <= i < |tracked| && tracked[i].id == id;
          assert front[i].id == id;
        }
      }
      assert ids == frontIds + {tracked[n].id};
    }
  }

  /**
    The rows of a published frame outnumber the detections of its update by the live tracks not seen in it.
    So rows and detections are equally many iff every live track has been given a detection.
  */
  lemma RowsBeyondDetections(
      cooldown: real, s: Pipeline.State, f: Frame, j: nat,
      cfg: TrackerModel.Config, before: TrackerModel.State, upd: TrackerModel.Frame)
    requires |f.tracked| == |f.tracks|
    requires TrackerModel.WellFormed(cfg, before) && TrackerModel.ValidFrame(cfg, before, upd)
    requires Lists(f.tracked, TrackerModel.Step(cfg, before, upd).objects)
    requires var t := FrameStep(cooldown, s, f).journal; |s.journal| <= j < |t| && t[j].Published?
    ensures var rows := Detections(FrameStep(cooldown, s, f).journal) - Detections(s.journal);
            var after := TrackerModel.Step(cfg, before, upd);
            && rows == |upd.dets| + |TrackerRuns.Unseen(after)|
            && (rows == |upd.dets| <==>
                forall id | id in after.objects :: TrackerRuns.HasDetection(before, upd, id))
  {
    var after := TrackerModel.Step(cfg, before, upd);
    PublishedFrame(cooldown, s, f, j);
    ListedOnce(f.tracked, after.objects);
    TrackerRuns.UnseenCount(cfg, before, upd);
    TrackerRuns.AllSeenIff(cfg, before, upd);
  }

  /** Track by track: each has a row, and the row is of a detection of this frame iff the track's age is 0. */
  lemma RowIsObservationIff(
      cooldown: real, s: Pipeline.State, f: Frame, j: nat, n: nat,
      cfg: TrackerModel.Config, before: TrackerModel.State, upd: TrackerModel.Frame) returns (i: nat)
    requires |f.tracked| == |f.tracks| && n < |f.tracked|
    requires TrackerModel.WellFormed(cfg, before) && TrackerModel.ValidFrame(cfg, before, upd)
    requires Lists(f.tracked, TrackerModel.Step(cfg, before, upd).objects)
    requires var t := FrameStep(cooldown, s, f).journal; |s.journal| <= j < |t| && t[j].Published?
    ensures var t := FrameStep(cooldown, s, f).journal;
            |s.journal| <= i < |t| && t[i].DetectionStored? && t[i].track == f.tracked[n].id
    ensures f.tracked[n].track.age == 0 <==> TrackerRuns.HasDetection(before, upd, f.tracked[n].id)
  {
    var t := FrameStep(cooldown, s, f).journal;
    PublishedFrame(cooldown, s, f, j);
    assert BoxOf(f, n, t[j].boxes[n], t, |s.journal|);
    i :| |s.journal| <= i < |t| && IsRow(t[i], f, n, t[j].boxes[n]);
    TrackerRuns.SeenIffAssigned(cfg, before, upd, f.tracked[n].id);
  }

  /** A frame in which nothing is detected, with one track from before. */
  function UnseenFrame(): Frame {
    var box := TrackerModel.Box(0.0, 0.0, 2.0, 2.0);
    Frame(true, [Tracked(1, TrackerModel.Track((1.0, 1.0), box, 1))], [], [],
          [TrackScript(Found(3), Works, Works, 0.0, Works, Accepted, Works, 0.0, Works)], true, Works)
  }

  /** It stores a row, of confidence zero. */
  lemma UnseenTrackGetsARow(cooldown: real)
    ensures var cfg := TrackerModel.Config((p: Point, q: Point) => 0.0, 1.0, 1);
            var before := TrackerModel.State(map[1 := UnseenFrame().tracked[0].track.(age := 0)], 2);
            var upd := TrackerModel.Frame([], [], []);
            && TrackerModel.WellFormed(cfg, before) && TrackerModel.ValidFrame(cfg, before, upd)
            && Lists(UnseenFrame().tracked, TrackerModel.Step(cfg, before, upd).objects)
    ensures FrameStep(cooldown, Pipeline.State([], map[]), UnseenFrame()).journal
         == [DetectionStored(1, 3, None, false, 0.0), DetectionNoted(3),
             Published([Drawn(UnseenFrame().tracked[0].track.bbox, 1, 3, false)])]
  {
    var f := UnseenFrame();
    var cfg := TrackerModel.Config((p: Point, q: Point) => 0.0, 1.0, 1);
    var before := TrackerModel.State(map[1 := f.tracked[0].track.(age := 0)], 2);
    NothingToRenew(cfg, before);
    var p, t, sc := Progress([], map[], [], false), f.tracked[0], f.tracks[0];
    var q := TracksStep(cooldown, f, 1, p);
    assert TracksStep(cooldown, f, 0, p) == p;
    assert q == TrackStep(cooldown, f, t, sc, p);
    assert DetectionOf(f, t, 3) == DetectionStored(1, 3, None, false, 0.0);
    assert Observe(f, t, 3, sc, p).journal == [DetectionStored(1, 3, None, false, 0.0), DetectionNoted(3)];
    assert q.boxes == [Drawn(t.track.bbox, 1, 3, false)];
  }

  /**
    However long tracks are carried on unseen, a published frame has stored at most as many detection rows
    as the detector has found cats in the last updates that the tracker remembers.
  */
  lemma RowsBoundedByRecentDetections(
      cooldown: real, s: Pipeline.State, f: Frame, j: nat,
      cfg: TrackerModel.Config, updates: seq<TrackerModel.Frame>, states: seq<TrackerModel.State>, n: nat)
    requires |f.tracked| == |f.tracks|
    requires TrackerRuns.IsRun(cfg, updates, states) && n < |states| && Lists(f.tracked, states[n].objects)
    requires var t := FrameStep(cooldown, s, f).journal; |s.journal| <= j < |t| && t[j].Published?
    ensures Detections(FrameStep(cooldown, s, f).journal) - Detections(s.journal)
         <= TrackerRuns.DetectionsIn(updates, TrackerRuns.WindowStart(n, TrackerModel.AgeLimit(cfg) + 1), n)
  {
    PublishedFrame(cooldown, s, f, j);
    ListedOnce(f.tracked, states[n].objects);
    TrackerRuns.LiveTracksBounded(cfg, updates, states, n);
  }
}
