/**
  The detection pipeline: what processing one frame writes, in order, when any call may raise.

  Rows stored, calls made and frames published are entries of a journal. `FrameStep` gives the journal
  and the cooldown table after a frame; the class does it statement by statement. A frame's script says
  how each outside call of that frame goes, if it is reached.
*/
module Pipeline {
  import opened Common
  import opened Zones
  import TrackerModel

  type Box = TrackerModel.Box

  type CatId = nat

  type ZoneId = nat

  type CatZone = (CatId, ZoneId)

  datatype Zone = Zone(id: ZoneId, points: seq<Point>)

  /** A live track, as the tracker returns it. */
  datatype Tracked = Tracked(id: int, track: TrackerModel.Track)

  datatype RawDetection = RawDetection(bbox: Box, confidence: real)

  datatype AlertStatus = Sent | Failed

  datatype Drawn = Drawn(bbox: Box, track: int, cat: CatId, danger: bool)

  datatype Entry =
    | DetectionStored(track: int, cat: CatId, zone: Option<ZoneId>, danger: bool, confidence: real)
    | DetectionNoted(cat: CatId)
    | AlertStored(pair: CatZone)                       // as pending
    | WebhookPosted(pair: CatZone)
    | StatusStored(pair: CatZone, status: AlertStatus)
    | Marked(pair: CatZone, time: real)                // in the cooldown table
    | AlertNoted(pair: CatZone)
    | Published(boxes: seq<Drawn>)

  datatype CatCall = Found(cat: CatId) | Lost

  datatype Post = Accepted | HttpError | OtherError

  /** How the calls made for one track go, and what the clock reads when the cooldown is checked and marked. */
  datatype TrackScript = TrackScript(
    cat: CatCall, detection: Call, detectionNote: Call,
    checked: real, alert: Call, post: Post, status: Call, marked: real, alertNote: Call)

  /** `opening`: detecting, opening the session and reading the zones; `closing`: closing it, drawing, encoding. */
  datatype Frame = Frame(
    opening: bool, tracked: seq<Tracked>, raw: seq<RawDetection>, zones: seq<Zone>,
    tracks: seq<TrackScript>, closing: bool, publish: Call)

  ghost predicate ValidFrame(f: Frame) {
    |f.tracks| == |f.tracked|
  }

  /** The journal, the cooldown table, the boxes so far, and whether something was raised. */
  datatype Progress = Progress(journal: seq<Entry>, lastFired: map<CatZone, real>, boxes: seq<Drawn>, raised: bool)

  /** `r` is the id of the first zone whose polygon contains the point, if there is one. */
  ghost predicate IsFirstZone(zones: seq<Zone>, p: Point, r: Option<ZoneId>) {
    && (r == None <==> forall i | 0 <= i < |zones| :: !Ring(p, zones[i].points))
    && (r.Some? ==> exists i | 0 <= i < |zones| ::
            zones[i].id == r.value && Ring(p, zones[i].points) && forall j | 0 <= j < i :: !Ring(p, zones[j].points))
  }

  function FirstZone(zones: seq<Zone>, p: Point): (r: Option<ZoneId>)
    ensures IsFirstZone(zones, p, r)
  {
    if zones == [] then None
    else if Ring(p, zones[0].points) then Some(zones[0].id)
    else
      var later := FirstZone(zones[1..], p);
      assert forall i | 1 <= i < |zones| :: zones[i] == zones[1..][i - 1];
      later
  }

  function FirstConfidence(raw: seq<RawDetection>, bbox: Box): real {
    if raw == [] then 0.0
    else if raw[0].bbox == bbox then raw[0].confidence
    else FirstConfidence(raw[1..], bbox)
  }

  /** `c` is the confidence of the first raw detection with just this box, or zero. */
  ghost predicate IsConfidence(raw: seq<RawDetection>, bbox: Box, c: real) {
    || (c == 0.0 && forall i | 0 <= i < |raw| :: raw[i].bbox != bbox)
    || (exists i | 0 <= i < |raw| ::
          raw[i].bbox == bbox && c == raw[i].confidence && forall j | 0 <= j < i :: raw[j].bbox != bbox)
  }

  lemma {:induction false} FirstConfidenceIs(raw: seq<RawDetection>, bbox: Box)
    ensures IsConfidence(raw, bbox, FirstConfidence(raw, bbox))
  {
    if raw != [] && raw[0].bbox != bbox {
      FirstConfidenceIs(raw[1..], bbox);
      assert forall i | 1 <= i < |raw| :: raw[i] == raw[1..][i - 1];
    }
  }

  lemma {:induction false} ConfidenceIsFirst(raw: seq<RawDetection>, bbox: Box, i: nat)
    requires i <= |raw| && forall j | 0 <= j < i :: raw[j].bbox != bbox
    ensures i == |raw| ==> FirstConfidence(raw, bbox) == 0.0
    ensures i < |raw| && raw[i].bbox == bbox ==> FirstConfidence(raw, bbox) == raw[i].confidence
  {
    if i > 0 {
      assert raw[0].bbox != bbox;
      ConfidenceIsFirst(raw[1..], bbox, i - 1);
    }
  }

  predicate ShouldFire(cooldown: real, lastFired: map<CatZone, real>, pair: CatZone, now: real) {
    pair !in lastFired || now - lastFired[pair] >= cooldown
  }

  /** A call whose effect is one entry. */
  function Calling(p: Progress, call: Call, e: Entry): Progress {
    p.(journal := if call == RaisesBefore then p.journal else p.journal + [e], raised := call != Works)
  }

  function StatusAfter(post: Post): AlertStatus {
    if post == Accepted then Sent else Failed
  }

  /** Storing the alert, calling the webhook, storing the outcome. Only HTTP errors are caught. */
  function Fire(p: Progress, pair: CatZone, sc: TrackScript): Progress {
    var p1 := Calling(p, sc.alert, AlertStored(pair));
    if p1.raised then p1 else
    var p2 := Calling(p1, Works, WebhookPosted(pair));
    if sc.post == OtherError then p2.(raised := true)
    else Calling(p2, sc.status, StatusStored(pair, StatusAfter(sc.post)))
  }

  function AlertStep(cooldown: real, p: Progress, pair: CatZone, sc: TrackScript): Progress {
    if !ShouldFire(cooldown, p.lastFired, pair, sc.checked) then p else
    var p1 := Fire(p, pair, sc);
    if p1.raised then p1 else
    var p2 := p1.(journal := p1.journal + [Marked(pair, sc.marked)], lastFired := p1.lastFired[pair := sc.marked]);
    Calling(p2, sc.alertNote, AlertNoted(pair))
  }

  function DetectionOf(f: Frame, t: Tracked, cat: CatId): Entry {
    var zone := FirstZone(f.zones, t.track.centroid);
    DetectionStored(t.id, cat, zone, zone.Some?, FirstConfidence(f.raw, t.track.bbox))
  }

  /** Storing the detection row and its activity. */
  function Observe(f: Frame, t: Tracked, cat: CatId, sc: TrackScript, p: Progress): Progress {
    var p1 := Calling(p, sc.detection, DetectionOf(f, t, cat));
    if p1.raised then p1 else Calling(p1, sc.detectionNote, DetectionNoted(cat))
  }

  /** The alert, if the cat is in a zone, and the box. */
  function React(cooldown: real, f: Frame, t: Tracked, cat: CatId, sc: TrackScript, p: Progress): Progress {
    var zone := FirstZone(f.zones, t.track.centroid);
    var p1 := if zone.Some? then AlertStep(cooldown, p, (cat, zone.value), sc) else p;
    if p1.raised then p1 else
    p1.(boxes := p1.boxes + [Drawn(t.track.bbox, t.id, cat, zone.Some?)])
  }

  function TrackStep(cooldown: real, f: Frame, t: Tracked, sc: TrackScript, p: Progress): Progress {
    if sc.cat == Lost then p.(raised := true) else
    var p1 := Observe(f, t, sc.cat.cat, sc, p);
    if p1.raised then p1 else React(cooldown, f, t, sc.cat.cat, sc, p1)
  }

  /** Track n of the frame, unless something was raised before. */
  function StepAt(cooldown: real, f: Frame, n: nat, p: Progress): Progress
    requires n < |f.tracked| == |f.tracks|
  {
    if p.raised then p else TrackStep(cooldown, f, f.tracked[n], f.tracks[n], p)
  }

  function TracksStep(cooldown: real, f: Frame, n: nat, p: Progress): Progress
    requires n <= |f.tracked| == |f.tracks|
  {
    if n == 0 then p else StepAt(cooldown, f, n - 1, TracksStep(cooldown, f, n - 1, p))
  }

  /** What each track keeps, all of them keep. */
  lemma TracksKeep(cooldown: real, f: Frame, n: nat, m: nat, p: Progress, inv: (nat, Progress) -> bool)
    requires n <= m <= |f.tracked| == |f.tracks| && inv(n, TracksStep(cooldown, f, n, p))
    requires forall k: nat, q | n <= k < m && inv(k, q) :: inv(k + 1, StepAt(cooldown, f, k, q))
    ensures inv(m, TracksStep(cooldown, f, m, p))
  {
    for k := n to m
      invariant inv(k, TracksStep(cooldown, f, k, p))
    {
      NextTrack(cooldown, f, k, p, TracksStep(cooldown, f, k, p));
    }
  }

  lemma NextTrack(cooldown: real, f: Frame, n: nat, p: Progress, q: Progress)
    requires n < |f.tracked| == |f.tracks| && q == TracksStep(cooldown, f, n, p)
    ensures TracksStep(cooldown, f, n + 1, p) == StepAt(cooldown, f, n, q)
  {
  }

  /** The journal and the cooldown table; what was raised goes no further than the frame. */
  datatype State = State(journal: seq<Entry>, lastFired: map<CatZone, real>)

  function FrameStep(cooldown: real, s: State, f: Frame): State
    requires |f.tracked| == |f.tracks|
  {
    if !f.opening then s else
    var p := TracksStep(cooldown, f, |f.tracked|, Progress(s.journal, s.lastFired, [], false));
    if p.raised || !f.closing then State(p.journal, p.lastFired)
    else State(Calling(p, f.publish, Published(p.boxes)).journal, p.lastFired)
  }

  class AlertCooldownTracker {
    const cooldown: real
    var lastFired: map<CatZone, real>

    constructor (cooldown: real)
      ensures this.cooldown == cooldown && lastFired == map[]
    {
      this.cooldown, lastFired := cooldown, map[];
    }

    method CheckFire(pair: CatZone, now: real) returns (fire: bool)
      ensures fire == ShouldFire(cooldown, lastFired, pair, now)
    {
      if pair !in lastFired {
        return true;
      }
      var last := lastFired[pair];
      return now - last >= cooldown;
    }

    method MarkFired(pair: CatZone, now: real)
      modifies this
      ensures lastFired == old(lastFired)[pair := now]
    {
      lastFired := lastFired[pair := now];
    }
  }

  class DetectionPipeline {
    const cooldownTracker: AlertCooldownTracker
    var journal: seq<Entry>

    ghost function View(): State
      reads this, cooldownTracker
    {
      State(journal, cooldownTracker.lastFired)
    }

    constructor (cooldown: real)
      ensures fresh(cooldownTracker) && cooldownTracker.cooldown == cooldown && View() == State([], map[])
    {
      cooldownTracker := new AlertCooldownTracker(cooldown);
      journal := [];
    }

    method Perform(call: Call, e: Entry) returns (ok: bool)
      modifies this
      ensures ok <==> call == Works
      ensures journal == if call == RaisesBefore then old(journal) else old(journal) + [e]
    {
      if call == RaisesBefore {
        return false;
      }
      journal := journal + [e];
      return call == Works;
    }

    method FireAlert(pair: CatZone, sc: TrackScript) returns (ok: bool)
      modifies this
      ensures var p := Fire(Progress(old(journal), map[], [], false), pair, sc);
              journal == p.journal && ok == !p.raised
    {
      ok := Perform(sc.alert, AlertStored(pair));
      if !ok {
        return;
      }
      var posted := Perform(Works, WebhookPosted(pair));
      match sc.post
      case Accepted => ok := Perform(sc.status, StatusStored(pair, Sent));
      case HttpError => ok := Perform(sc.status, StatusStored(pair, Failed));
      case OtherError => ok := false;
    }

    /** One frame; whatever is raised ends the frame and is swallowed. */
    method ProcessFrame(f: Frame)
      requires ValidFrame(f)
      modifies this, cooldownTracker
      ensures View() == FrameStep(cooldownTracker.cooldown, old(View()), f)
    {
      if !f.opening {
        return;
      }
      var ok, boxes := ProcessTracks(f);
      if ok && f.closing {
        ok := Perform(f.publish, Published(boxes));
      }
    }

    method ProcessTracks(f: Frame) returns (ok: bool, boxes: seq<Drawn>)
      requires ValidFrame(f)
      modifies this, cooldownTracker
      ensures TracksStep(cooldownTracker.cooldown, f, |f.tracked|,
                         Progress(old(journal), old(cooldownTracker.lastFired), [], false))
           == Progress(journal, cooldownTracker.lastFired, boxes, !ok)
    {
      ghost var start := Progress(journal, cooldownTracker.lastFired, [], false);
      boxes := [];
      for n := 0 to |f.tracked|
        invariant TracksStep(cooldownTracker.cooldown, f, n, start)
               == Progress(journal, cooldownTracker.lastFired, boxes, false)
      {
        ghost var p := Progress(journal, cooldownTracker.lastFired, boxes, false);
        var drawn, box := ProcessTrack(f, f.tracked[n], f.tracks[n], boxes);
        if !drawn {
          ghost var q := Progress(journal, cooldownTracker.lastFired, boxes, true);
          OneMoreTrack(cooldownTracker.cooldown, f, n, start, p, q);
          RaisedStaysRaised(cooldownTracker.cooldown, f, n + 1, |f.tracked|, start, q);
          return false, boxes;
        }
        boxes := boxes + [box];
        OneMoreTrack(cooldownTracker.cooldown, f, n, start, p,
                     Progress(journal, cooldownTracker.lastFired, boxes, false));
      }
      return true, boxes;
    }

    method ProcessTrack(f: Frame, t: Tracked, sc: TrackScript, ghost boxes: seq<Drawn>) returns (ok: bool, box: Drawn)
      modifies this, cooldownTracker
      ensures TrackStep(cooldownTracker.cooldown, f, t, sc, Progress(old(journal), old(cooldownTracker.lastFired),
          boxes, false))
           == Progress(journal, cooldownTracker.lastFired, if ok then boxes + [box] else boxes, !ok)
    {
      box := Drawn(t.track.bbox, t.id, 0, false);
      if sc.cat == Lost {
        return false, box;
      }
      var cat := sc.cat.cat;
      var zone := FindZone(f.zones, t.track.centroid);
      ok := Perform(sc.detection, DetectionStored(t.id, cat, zone, zone.Some?, FirstConfidence(f.raw, t.track.bbox)));
      if !ok {
        return;
      }
      ok := Perform(sc.detectionNote, DetectionNoted(cat));
      if !ok {
        return;
      }
      if zone.Some? {
        BoxesApart(cooldownTracker.cooldown, Progress(journal, cooldownTracker.lastFired, [], false), (cat,
            zone.value), sc, boxes);
        ok := AlertIfDue((cat, zone.value), sc);
        if !ok {
          return;
        }
      }
      box := Drawn(t.track.bbox, t.id, cat, zone.Some?);
    }

    method AlertIfDue(pair: CatZone, sc: TrackScript) returns (ok: bool)
      modifies this, cooldownTracker
      ensures AlertStep(cooldownTracker.cooldown, Progress(old(journal), old(cooldownTracker.lastFired), [],
          false), pair, sc)
           == Progress(journal, cooldownTracker.lastFired, [], !ok)
    {
      var fire := cooldownTracker.CheckFire(pair, sc.checked);
      if !fire {
        return true;
      }
      ok := FireAlert(pair, sc);
      if !ok {
        return;
      }
      cooldownTracker.MarkFired(pair, sc.marked);
      journal := journal + [Marked(pair, sc.marked)];
      ok := Perform(sc.alertNote, AlertNoted(pair));
    }

    method FindZone(zones: seq<Zone>, p: Point) returns (r: Option<ZoneId>)
      ensures r == FirstZone(zones, p)
    {
      for i := 0 to |zones|
        invariant FirstZone(zones, p) == FirstZone(zones[i..], p)
      {
        var inside := PointInPolygon(p, zones[i].points);
        if inside {
          return Some(zones[i].id);
        }
        assert zones[i..][1..] == zones[i + 1..];
      }
      return None;
    }
  }

  lemma OneMoreTrack(cooldown: real, f: Frame, n: nat, start: Progress, p: Progress, q: Progress)
    requires n < |f.tracked| == |f.tracks| && p == TracksStep(cooldown, f, n, start) && !p.raised
    requires q == TrackStep(cooldown, f, f.tracked[n], f.tracks[n], p)
    ensures TracksStep(cooldown, f, n + 1, start) == q
  {
    NextTrack(cooldown, f, n, start, p);
  }

  lemma RaisedStaysRaised(cooldown: real, f: Frame, n: nat, m: nat, p: Progress, q: Progress)
    requires n <= m <= |f.tracked| == |f.tracks|
    requires q == TracksStep(cooldown, f, n, p) && q.raised
    ensures TracksStep(cooldown, f, m, p) == q
  {
    var inv := (k: nat, r: Progress) => r == q;
    forall k: nat, r | n <= k < m && inv(k, r) ensures inv(k + 1, StepAt(cooldown, f, k, r)) {
      RaisedSkips(cooldown, f, k, q);
    }
    TracksKeep(cooldown, f, n, m, p, inv);
  }

  lemma RaisedSkips(cooldown: real, f: Frame, n: nat, p: Progress)
    requires n < |f.tracked| == |f.tracks| && p.raised
    ensures StepAt(cooldown, f, n, p) == p
  {
  }

  /** The alert branch neither reads nor writes the boxes. */
  lemma BoxesApart(cooldown: real, p: Progress, pair: CatZone, sc: TrackScript, boxes: seq<Drawn>)
    ensures AlertStep(cooldown, p.(boxes := boxes), pair, sc) == AlertStep(cooldown, p, pair, sc).(boxes := boxes)
  {
  }
}
