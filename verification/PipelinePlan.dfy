/**
  A frame as a list of effects: what it would write if nothing failed, with how each call goes. What the
  frame writes is that list up to the first call that fails, and the cooldown table follows from it.
*/
module PipelinePlan {
  import opened Common
  import opened Zones
  import opened Convex
  import opened Pipeline
  import opened PipelineRuns
  import TrackerModel

  datatype Action = Action(call: Call, entry: Entry)

  /** Nothing after a call that fails; of that call itself, what it does before it raises. */
  function Executed(plan: seq<Action>): seq<Entry> {
    if plan == [] then []
    else match plan[0].call
      case Works => [plan[0].entry] + Executed(plan[1..])
      case RaisesBefore => []
      case RaisesAfter => [plan[0].entry]
  }

  predicate Fails(plan: seq<Action>) {
    plan != [] && (plan[0].call != Works || Fails(plan[1..]))
  }

  /** The cooldown table, if `before` was the table before these entries. */
  function Table(before: map<CatZone, real>, entries: seq<Entry>): map<CatZone, real> {
    if entries == [] then before
    else
      var table, e := Table(before, entries[..|entries| - 1]), entries[|entries| - 1];
      if e.Marked? then table[e.pair := e.time] else table
  }

  /** The row and its activity. */
  function ObservePlan(f: Frame, n: nat, cat: CatId): seq<Action>
    requires n < |f.tracked| == |f.tracks|
  {
    var t, sc := f.tracked[n], f.tracks[n];
    var zone := FirstZone(f.zones, t.track.centroid);
    [Action(sc.detection, DetectionStored(t.id, cat, zone, zone != None, FirstConfidence(f.raw, t.track.bbox))),
     Action(sc.detectionNote, DetectionNoted(cat))]
  }

  /** The pending alert, the webhook call, the alert's status, the mark and the activity. */
  function AlertPlan(pair: CatZone, sc: TrackScript): seq<Action> {
    [Action(sc.alert, AlertStored(pair)),
     Action(if sc.post == OtherError then RaisesAfter else Works, WebhookPosted(pair)),
     Action(sc.status, StatusStored(pair, if sc.post == Accepted then Sent else Failed)),
     Action(Works, Marked(pair, sc.marked)),
     Action(sc.alertNote, AlertNoted(pair))]
  }

  /** Never marked, or at least the cooldown ago. */
  predicate Due(cooldown: real, table: map<CatZone, real>, pair: CatZone, now: real) {
    pair in table ==> now - table[pair] >= cooldown
  }

  /** What track n would write; `table` is the cooldown table when it comes to it. */
  function TrackPlan(cooldown: real, f: Frame, n: nat, table: map<CatZone, real>): seq<Action>
    requires n < |f.tracked| == |f.tracks|
  {
    var sc := f.tracks[n];
    match sc.cat
    case Lost => [Action(RaisesBefore, DetectionNoted(0))]
    case Found(cat) =>
      match FirstZone(f.zones, f.tracked[n].track.centroid)
      case None => ObservePlan(f, n, cat)
      case Some(zone) =>
        if Due(cooldown, table, (cat, zone), sc.checked) then ObservePlan(f, n, cat) + AlertPlan((cat, zone), sc)
        else ObservePlan(f, n, cat)
  }

  // ---------- lists of effects ----------

  function Entries(plan: seq<Action>): (es: seq<Entry>)
    ensures |es| == |plan| && forall i | 0 <= i < |plan| :: es[i] == plan[i].entry
  {
    seq(|plan|, i requires 0 <= i < |plan| => plan[i].entry)
  }

  lemma ExecutedFirst(x: Action, rest: seq<Action>)
    ensures var plan := [x] + rest;
            && Executed(plan) == (match x.call
                                  case Works => [x.entry] + Executed(rest)
                                  case RaisesBefore => []
                                  case RaisesAfter => [x.entry])
            && (Fails(plan) <==> x.call != Works || Fails(rest))
  {
    assert ([x] + rest)[1..] == rest;
  }

  /** First `a`, and then `b` if nothing failed. */
  predicate Continues(a: seq<Action>, b: seq<Action>) {
    && Executed(a + b) == (if Fails(a) then Executed(a) else Executed(a) + Executed(b))
    && (Fails(a + b) <==> Fails(a) || Fails(b))
  }

  lemma OneBefore(x: Action, a: seq<Action>, b: seq<Action>)
    requires Continues(a, b)
    ensures Continues([x] + a, b)
  {
    assert ([x] + a) + b == [x] + (a + b);
    ExecutedFirst(x, a);
    ExecutedFirst(x, a + b);
    Regroup([x.entry], Executed(a), Executed(b));
  }

  lemma {:induction false} ExecutedConcat(a: seq<Action>, b: seq<Action>)
    ensures Continues(a, b)
  {
    if a == [] {
      assert a + b == b;
    } else {
      ExecutedConcat(a[1..], b);
      OneBefore(a[0], a[1..], b);
      assert a == [a[0]] + a[1..];
    }
  }

  lemma {:induction false} TableConcat(before: map<CatZone, real>, a: seq<Entry>, b: seq<Entry>)
    ensures Table(before, a + b) == Table(Table(before, a), b)
  {
    if b == [] {
      assert a + b == a;
    } else {
      TableConcat(before, a, b[..|b| - 1]);
      assert (a + b)[..|a + b| - 1] == a + b[..|b| - 1];
    }
  }

  /** One more action, at the end. */
  lemma ExecutedMore(plan: seq<Action>, a: Action)
    ensures Fails(plan) ==> Fails(plan + [a]) && Executed(plan + [a]) == Executed(plan)
    ensures !Fails(plan) ==>
              (Fails(plan + [a]) <==> a.call != Works)
              && Executed(plan + [a]) == Executed(plan) + if a.call == RaisesBefore then [] else [a.entry]
  {
    ExecutedConcat(plan, [a]);
    ExecutedFirst(a, []);
    assert [a] + [] == [a] && [a.entry] + [] == [a.entry] && Executed(plan) + [] == Executed(plan);
  }

  // ---------- one track ----------

  /** `q` is what these actions make of `p`, as to the journal, the table and whether something was raised. */
  predicate Does(p: Progress, plan: seq<Action>, q: Progress) {
    && q.journal == p.journal + Executed(plan)
    && q.raised == Fails(plan)
    && q.lastFired == Table(p.lastFired, Executed(plan))
  }

  lemma DoesNothing(p: Progress)
    requires !p.raised
    ensures Does(p, [], p)
  {
  }

  lemma TableMore(before: map<CatZone, real>, entries: seq<Entry>, e: Entry)
    ensures Table(before, entries + [e])
         == if e.Marked? then Table(before, entries)[e.pair := e.time] else Table(before, entries)
  {
    assert (entries + [e])[..|entries|] == entries;
  }

  lemma Regroup(a: seq<Entry>, b: seq<Entry>, c: seq<Entry>)
    ensures (a + b) + c == a + (b + c)
  {
  }

  /** The next call. */
  lemma CallingDoes(p: Progress, plan: seq<Action>, q: Progress, call: Call, e: Entry)
    requires Does(p, plan, q) && !q.raised && !e.Marked?
    ensures Does(p, plan + [Action(call, e)], Calling(q, call, e))
  {
    var done := Executed(plan);
    ExecutedMore(plan, Action(call, e));
    if call == RaisesBefore {
      assert done + [] == done;
    } else {
      TableMore(p.lastFired, done, e);
      Regroup(p.journal, done, [e]);
    }
  }

  lemma MarkDoes(p: Progress, plan: seq<Action>, q: Progress, pair: CatZone, time: real)
    requires Does(p, plan, q) && !q.raised
    ensures Does(p, plan + [Action(Works, Marked(pair, time))],
                 q.(journal := q.journal + [Marked(pair, time)], lastFired := q.lastFired[pair := time]))
  {
    ExecutedMore(plan, Action(Works, Marked(pair, time)));
    TableMore(p.lastFired, Executed(plan), Marked(pair, time));
    Regroup(p.journal, Executed(plan), [Marked(pair, time)]);
  }

  /** What follows a call that failed is not done. */
  lemma NothingMore(p: Progress, plan: seq<Action>, q: Progress, more: seq<Action>)
    requires Does(p, plan, q) && q.raised
    ensures Does(p, plan + more, q)
  {
    ExecutedConcat(plan, more);
  }

  lemma ObserveDoes(f: Frame, n: nat, cat: CatId, p: Progress)
    requires n < |f.tracked| == |f.tracks| && !p.raised
    ensures Does(p, ObservePlan(f, n, cat), Observe(f, f.tracked[n], cat, f.tracks[n], p))
  {
    var sc, plan := f.tracks[n], ObservePlan(f, n, cat);
    var p1 := Calling(p, sc.detection, plan[0].entry);
    DoesNothing(p);
    CallingDoes(p, [], p, plan[0].call, plan[0].entry);
    assert [] + [plan[0]] == [plan[0]] && [plan[0]] + [plan[1]] == plan;
    if p1.raised {
      NothingMore(p, [plan[0]], p1, [plan[1]]);
    } else {
      CallingDoes(p, [plan[0]], p1, plan[1].call, plan[1].entry);
    }
  }

  /** The five steps of an alert. */
  lemma FireDoes(p: Progress, pair: CatZone, sc: TrackScript)
    requires !p.raised
    ensures Does(p, AlertPlan(pair, sc)[..3], Fire(p, pair, sc))
  {
    var plan := AlertPlan(pair, sc);
    var p1 := Calling(p, plan[0].call, plan[0].entry);
    DoesNothing(p);
    CallingDoes(p, [], p, plan[0].call, plan[0].entry);
    assert [] + [plan[0]] == plan[..1] && plan[..1] + [plan[1]] == plan[..2] && plan[..2] + [plan[2]] == plan[..3];
    if p1.raised {
      NothingMore(p, plan[..1], p1, plan[1..3]);
      assert plan[..1] + plan[1..3] == plan[..3];
    } else {
      var p2 := Calling(p1, plan[1].call, plan[1].entry);
      CallingDoes(p, plan[..1], p1, plan[1].call, plan[1].entry);
      if p2.raised {
        NothingMore(p, plan[..2], p2, [plan[2]]);
      } else {
        CallingDoes(p, plan[..2], p2, plan[2].call, plan[2].entry);
      }
    }
  }

  lemma AlertDoes(cooldown: real, p: Progress, pair: CatZone, sc: TrackScript)
    requires !p.raised
    ensures Due(cooldown, p.lastFired, pair, sc.checked) ==>
              Does(p, AlertPlan(pair, sc), AlertStep(cooldown, p, pair, sc))
    ensures !Due(cooldown, p.lastFired, pair, sc.checked) ==> AlertStep(cooldown, p, pair, sc) == p
  {
    if Due(cooldown, p.lastFired, pair, sc.checked) {
      var plan, p1 := AlertPlan(pair, sc), Fire(p, pair, sc);
      FireDoes(p, pair, sc);
      assert plan[..3] + plan[3..] == plan && plan[..3] + [plan[3]] == plan[..4] && plan[..4] + [plan[4]] == plan;
      if p1.raised {
        NothingMore(p, plan[..3], p1, plan[3..]);
      } else {
        MarkDoes(p, plan[..3], p1, pair, sc.marked);
        var p2 := p1.(journal := p1.journal + [Marked(pair, sc.marked)], lastFired := p1.lastFired[pair := sc.marked]);
        CallingDoes(p, plan[..4], p2, plan[4].call, plan[4].entry);
      }
    }
  }

  /** First these, then those. */
  lemma DoesBoth(p: Progress, a: seq<Action>, q: Progress, b: seq<Action>, r: Progress)
    requires Does(p, a, q) && (if q.raised then r == q else Does(q, b, r))
    ensures Does(p, a + b, r)
  {
    ExecutedConcat(a, b);
    if !q.raised {
      TableConcat(p.lastFired, Executed(a), Executed(b));
      Regroup(p.journal, Executed(a), Executed(b));
    }
  }

  /** What is planned for a track once its row and activity are stored. */
  function ReactPlan(cooldown: real, f: Frame, n: nat, cat: CatId, table: map<CatZone, real>): seq<Action>
    requires n < |f.tracked| == |f.tracks|
  {
    match FirstZone(f.zones, f.tracked[n].track.centroid)
    case None => []
    case Some(zone) =>
      if Due(cooldown, table, (cat, zone), f.tracks[n].checked) then AlertPlan((cat, zone), f.tracks[n]) else []
  }

  lemma PlanInTwo(cooldown: real, f: Frame, n: nat, cat: CatId, table: map<CatZone, real>)
    requires n < |f.tracked| == |f.tracks| && f.tracks[n].cat == Found(cat)
    ensures TrackPlan(cooldown, f, n, table) == ObservePlan(f, n, cat) + ReactPlan(cooldown, f, n, cat, table)
  {
  }

  lemma ReactDoes(cooldown: real, f: Frame, n: nat, cat: CatId, p: Progress)
    requires n < |f.tracked| == |f.tracks| && !p.raised
    ensures var t := f.tracked[n];
            var zone, q := FirstZone(f.zones, t.track.centroid), React(cooldown, f, t, cat, f.tracks[n], p);
            && Does(p, ReactPlan(cooldown, f, n, cat, p.lastFired), q)
            && (!q.raised ==> q.boxes == p.boxes + [Drawn(t.track.bbox, t.id, cat, zone != None)])
  {
    var zone := FirstZone(f.zones, f.tracked[n].track.centroid);
    DoesNothing(p);
    if zone != None {
      AlertDoes(cooldown, p, (cat, zone.value), f.tracks[n]);
      AlertKeepsBoxes(cooldown, p, (cat, zone.value), f.tracks[n]);
    }
  }

  /** What track n writes is its plan up to the first call that fails; if none does, its box is drawn. */
  lemma TrackRefines(cooldown: real, f: Frame, n: nat, p: Progress)
    requires n < |f.tracked| == |f.tracks| && !p.raised
    ensures var q, t := StepAt(cooldown, f, n, p), f.tracked[n];
            && Does(p, TrackPlan(cooldown, f, n, p.lastFired), q)
            && (!q.raised ==>
                  f.tracks[n].cat.Found?
                  && q.boxes == p.boxes + [Drawn(t.track.bbox, t.id, f.tracks[n].cat.cat,
                                                 FirstZone(f.zones, t.track.centroid) != None)])
  {
    match f.tracks[n].cat
    case Lost =>
      LostDoes(p);
    case Found(cat) =>
      FoundDoes(cooldown, f, n, cat, p);
  }

  lemma FoundDoes(cooldown: real, f: Frame, n: nat, cat: CatId, p: Progress)
    requires n < |f.tracked| == |f.tracks| && !p.raised && f.tracks[n].cat == Found(cat)
    ensures var q, t := TrackStep(cooldown, f, f.tracked[n], f.tracks[n], p), f.tracked[n];
            && Does(p, TrackPlan(cooldown, f, n, p.lastFired), q)
            && (!q.raised ==>
                  q.boxes == p.boxes + [Drawn(t.track.bbox, t.id, cat, FirstZone(f.zones, t.track.centroid) != None)])
  {
    var q, p1 := TrackStep(cooldown, f, f.tracked[n], f.tracks[n], p), Observed(f, n, p);
    ObserveDoes(f, n, cat, p);
    ObservedKeeps(f, n, p);
    PlanInTwo(cooldown, f, n, cat, p.lastFired);
    if !p1.raised {
      ReactDoes(cooldown, f, n, cat, p1);
    }
    DoesBoth(p, ObservePlan(f, n, cat), p1, ReactPlan(cooldown, f, n, cat, p.lastFired), q);
  }

  lemma ObservedKeeps(f: Frame, n: nat, p: Progress)
    requires n < |f.tracked| == |f.tracks| && f.tracks[n].cat.Found?
    ensures Observed(f, n, p).lastFired == p.lastFired && Observed(f, n, p).boxes == p.boxes
  {
  }

  lemma LostDoes(p: Progress)
    requires !p.raised
    ensures Does(p, [Action(RaisesBefore, DetectionNoted(0))], p.(raised := true))
  {
  }

  // ---------- one frame ----------

  /** What the first n tracks would write, each going by the marks of those before. */
  function TracksPlan(cooldown: real, f: Frame, n: nat, table: map<CatZone, real>): seq<Action>
    requires n <= |f.tracked| == |f.tracks|
  {
    if n == 0 then []
    else
      var before := TracksPlan(cooldown, f, n - 1, table);
      before + TrackPlan(cooldown, f, n - 1, Table(table, Entries(before)))
  }

  function BoxAt(f: Frame, n: nat): Drawn
    requires n < |f.tracked| == |f.tracks|
  {
    var t, zone := f.tracked[n], FirstZone(f.zones, f.tracked[n].track.centroid);
    Drawn(t.track.bbox, t.id, if f.tracks[n].cat.Found? then f.tracks[n].cat.cat else 0, zone != None)
  }

  /** The boxes of the first n tracks. */
  function Boxes(f: Frame, n: nat): seq<Drawn>
    requires n <= |f.tracked| == |f.tracks|
  {
    seq(n, k requires 0 <= k < n => BoxAt(f, k))
  }

  /** What a frame would write: its tracks in turn, and the frame published. */
  function FramePlan(cooldown: real, f: Frame, table: map<CatZone, real>): seq<Action>
    requires |f.tracked| == |f.tracks|
  {
    if !f.opening then []
    else
      TracksPlan(cooldown, f, |f.tracked|, table)
      + [Action(if f.closing then f.publish else RaisesBefore, Published(Boxes(f, |f.tracked|)))]
  }

  lemma {:induction false} ExecutedAll(plan: seq<Action>)
    requires !Fails(plan)
    ensures Executed(plan) == Entries(plan)
  {
    if plan != [] {
      ExecutedAll(plan[1..]);
      assert Entries(plan) == [plan[0].entry] + Entries(plan[1..]);
    }
  }

  /** After n tracks of a frame that begins with `p`. */
  predicate TracksDone(cooldown: real, f: Frame, p: Progress, n: nat, q: Progress)
    requires n <= |f.tracked| == |f.tracks|
  {
    && q == TracksStep(cooldown, f, n, p)
    && Does(p, TracksPlan(cooldown, f, n, p.lastFired), q)
    && (!q.raised ==> q.boxes == p.boxes + Boxes(f, n))
  }

  lemma NextTrackDone(cooldown: real, f: Frame, p: Progress, n: nat, q: Progress)
    requires n < |f.tracked| == |f.tracks| && TracksDone(cooldown, f, p, n, q)
    ensures TracksDone(cooldown, f, p, n + 1, StepAt(cooldown, f, n, q))
  {
    var plan := TracksPlan(cooldown, f, n, p.lastFired);
    NextTrack(cooldown, f, n, p, q);
    NextDoes(cooldown, f, n, p, plan, q);
    if !q.raised {
      TrackRefines(cooldown, f, n, q);
      OneMoreBox(f, n);
    }
  }

  lemma NextDoes(cooldown: real, f: Frame, n: nat, p: Progress, plan: seq<Action>, q: Progress)
    requires n < |f.tracked| == |f.tracks| && Does(p, plan, q)
    ensures Does(p, plan + TrackPlan(cooldown, f, n, Table(p.lastFired, Entries(plan))), StepAt(cooldown, f, n, q))
  {
    var next := TrackPlan(cooldown, f, n, Table(p.lastFired, Entries(plan)));
    if q.raised {
      NothingMore(p, plan, q, next);
    } else {
      ExecutedAll(plan);
      TrackRefines(cooldown, f, n, q);
      DoesBoth(p, plan, q, next, StepAt(cooldown, f, n, q));
    }
  }

  lemma OneMoreBox(f: Frame, n: nat)
    requires n < |f.tracked| == |f.tracks|
    ensures Boxes(f, n + 1) == Boxes(f, n) + [BoxAt(f, n)]
  {
  }

  lemma TracksRefine(cooldown: real, f: Frame, p: Progress)
    requires |f.tracked| == |f.tracks| && !p.raised
    ensures TracksDone(cooldown, f, p, |f.tracked|, TracksStep(cooldown, f, |f.tracked|, p))
  {
    DoesNothing(p);
    var q := p;
    for k := 0 to |f.tracked|
      invariant TracksDone(cooldown, f, p, k, q)
    {
      NextTrackDone(cooldown, f, p, k, q);
      q := StepAt(cooldown, f, k, q);
    }
  }

  /**
    A frame writes its plan up to the first call that fails, and leaves the cooldown table that follows from
    the marks among what it wrote.
  */
  lemma FrameRefines(cooldown: real, s: Pipeline.State, f: Frame)
    requires |f.tracked| == |f.tracks|
    ensures var done := Executed(FramePlan(cooldown, f, s.lastFired));
            FrameStep(cooldown, s, f) == Pipeline.State(s.journal + done, Table(s.lastFired, done))
  {
    if f.opening {
      var p := TracksStep(cooldown, f, |f.tracked|, Begin(s));
      TracksRefine(cooldown, f, Begin(s));
      EndOfPlan(cooldown, f, Begin(s), p);
    }
  }

  lemma EndOfPlan(cooldown: real, f: Frame, s: Progress, p: Progress)
    requires |f.tracked| == |f.tracks| && f.opening && s.boxes == []
    requires TracksDone(cooldown, f, s, |f.tracked|, p)
    ensures var q := if p.raised || !f.closing then p else Calling(p, f.publish, Published(p.boxes));
            var done := Executed(FramePlan(cooldown, f, s.lastFired));
            q.journal == s.journal + done && q.lastFired == Table(s.lastFired, done)
  {
    var plan, boxes := TracksPlan(cooldown, f, |f.tracked|, s.lastFired), Boxes(f, |f.tracked|);
    var last := Action(if f.closing then f.publish else RaisesBefore, Published(boxes));
    assert [] + boxes == boxes;
    ExecutedMore(plan, last);
    if !p.raised {
      CallingDoes(s, plan, p, last.call, last.entry);
    }
  }

  // ---------- what follows ----------

  /**
    A frame is published exactly if it is opened and closed, no call for its tracks fails, and publishing gets
    through.
  */
  lemma PublishedIff(cooldown: real, s: Pipeline.State, f: Frame)
    requires |f.tracked| == |f.tracks|
    ensures var t := FrameStep(cooldown, s, f).journal;
            (exists j | |s.journal| <= j < |t| :: t[j].Published?) <==>
              && f.opening && f.closing && f.publish != RaisesBefore
              && !Fails(TracksPlan(cooldown, f, |f.tracked|, s.lastFired))
  {
    if f.opening {
      var p := TracksStep(cooldown, f, |f.tracked|, Begin(s));
      TracksRefine(cooldown, f, Begin(s));
      TracksDrawn(cooldown, f, |f.tracked|, s);
      LastPublishes(s.journal, p.journal, !p.raised && f.closing && f.publish != RaisesBefore, Published(p.boxes));
    }
  }

  lemma LastPublishes(before: seq<Entry>, journal: seq<Entry>, more: bool, e: Entry)
    requires e.Published? && Extends(before, journal)
    ensures var t := if more then journal + [e] else journal;
            (exists j | |before| <= j < |t| :: t[j].Published?) <==> more
  {
    if more {
      assert (journal + [e])[|journal|] == e;
    }
  }

  /** In zones that are convex polygons, danger is being on the left of all edges of one of them. */
  lemma DangerByHalfPlanes(cooldown: real, s: Pipeline.State, f: Frame, j: nat, n: nat)
    requires |f.tracked| == |f.tracks| && n < |f.tracked|
    requires var t := FrameStep(cooldown, s, f).journal; |s.journal| <= j < |t| && t[j].Published?
    requires forall i | 0 <= i < |f.zones| :: Counterclockwise(f.zones[i].points)
    ensures var boxes := FrameStep(cooldown, s, f).journal[j].boxes;
            n < |boxes| && (boxes[n].danger <==>
              exists i | 0 <= i < |f.zones| :: OnLeftOfAll(f.tracked[n].track.centroid, f.zones[i].points))
  {
    PublishedFrame(cooldown, s, f, j);
    var t, c := FrameStep(cooldown, s, f).journal, f.tracked[n].track.centroid;
    assert BoxOf(f, n, t[j].boxes[n], t, |s.journal|);
    forall i | 0 <= i < |f.zones| ensures Ring(c, f.zones[i].points) <==> OnLeftOfAll(c, f.zones[i].points) {
      ConvexContains(c, f.zones[i].points);
    }
  }

  /** With an upright rectangle for a zone it is a matter of the two coordinates; and the row says which zone. */
  lemma DangerInRectangle(cooldown: real, s: Pipeline.State, f: Frame, j: nat, n: nat, zone: ZoneId,
                          x0: real, y0: real, x1: real, y1: real) returns (i: nat)
    requires |f.tracked| == |f.tracks| && n < |f.tracked|
    requires var t := FrameStep(cooldown, s, f).journal; |s.journal| <= j < |t| && t[j].Published?
    requires f.zones == [Zone(zone, [(x0, y0), (x1, y0), (x1, y1), (x0, y1)])] && x0 <= x1 && y0 <= y1
    ensures var t, c := FrameStep(cooldown, s, f).journal, f.tracked[n].track.centroid;
            var inside := x0 < c.0 <= x1 && y0 < c.1 <= y1;
            && n < |t[j].boxes| && t[j].boxes[n].danger == inside
            && |s.journal| <= i < |t| && t[i].DetectionStored? && t[i].track == f.tracked[n].id
            && t[i].danger == inside && t[i].zone == if inside then Some(zone) else None
  {
    PublishedFrame(cooldown, s, f, j);
    var t, c := FrameStep(cooldown, s, f).journal, f.tracked[n].track.centroid;
    assert BoxOf(f, n, t[j].boxes[n], t, |s.journal|);
    i :| |s.journal| <= i < |t| && IsRow(t[i], f, n, t[j].boxes[n]);
    RectangleIsHalfOpen(c, x0, y0, x1, y1);
    assert Ring(c, f.zones[0].points) <==> x0 < c.0 <= x1 && y0 < c.1 <= y1;
  }
}
