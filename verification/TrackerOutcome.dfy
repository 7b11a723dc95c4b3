/**
  What an update may make of the table of tracks, said without the scan: which detection went to which track,
  by distances alone. An update does one of these things, and any of them for some order of its walks.
*/
module TrackerOutcome {
  import opened Common
  import opened Matching
  import opened TrackerModel

  function Apart(cfg: Config, s: State, dets: seq<Detection>, id: int, d: nat): real
    requires id in s.objects && d < |dets|
  {
    cfg.distance(s.objects[id].centroid, dets[d].centroid)
  }

  /** If a track and a detection are not given to each other, one of them is to something no farther away. */
  ghost predicate Settled(cfg: Config, s: State, dets: seq<Detection>, went: seq<int>, id: int, d: nat)
    requires |went| == |dets| && id in s.objects && d < |dets|
  {
    || (exists e: nat | e < |went| :: went[e] == id && Apart(cfg, s, dets, id, e) <= Apart(cfg, s, dets, id, d))
    || (went[d] in s.objects && Apart(cfg, s, dets, went[d], d) <= Apart(cfg, s, dets, id, d))
  }

  /** Each detection goes to a track of its own, from before or with one of the next ids, all of them used. */
  ghost predicate Distributed(s: State, dets: seq<Detection>, nextId: int, went: seq<int>) {
    && |went| == |dets| && s.nextId <= nextId
    && (forall d, e | 0 <= d < e < |went| :: went[d] != went[e])
    && (forall d | 0 <= d < |went| :: went[d] in s.objects || s.nextId <= went[d] < nextId)
    && (forall id | s.nextId <= id < nextId :: id in went)
  }

  /** Tracks given a detection are just seen; the others are one update older, or gone if that is too old. */
  ghost predicate Renewal(cfg: Config, s: State, dets: seq<Detection>, objects: map<int, Track>, went: seq<int>)
    requires |went| == |dets|
  {
    && (forall d | 0 <= d < |went| ::
          went[d] in objects && objects[went[d]] == Track(dets[d].centroid, dets[d].bbox, 0))
    && (forall id | id !in went :: id in objects <==> id in s.objects && s.objects[id].age + 1 <= cfg.maxAge)
    && (forall id | id !in went && id in objects && id in s.objects ::
          objects[id] == Track(s.objects[id].centroid, s.objects[id].bbox, s.objects[id].age + 1))
  }

  /** No track is given a detection beyond the limit, and within it every pair is settled. */
  ghost predicate Nearest(cfg: Config, s: State, dets: seq<Detection>, went: seq<int>)
    requires |went| == |dets|
  {
    && (forall d: nat | d < |went| && went[d] in s.objects :: Apart(cfg, s, dets, went[d], d) <= cfg.maxDistance)
    && (forall id, d: nat | id in s.objects && d < |dets| ::
          Apart(cfg, s, dets, id, d) <= cfg.maxDistance ==> Settled(cfg, s, dets, went, id, d))
  }

  ghost predicate Outcome(cfg: Config, s: State, dets: seq<Detection>, t: State, went: seq<int>) {
    Distributed(s, dets, t.nextId, went) && Renewal(cfg, s, dets, t.objects, went) && Nearest(cfg, s, dets, went)
  }

  // ---------- what an update does is an outcome ----------

  ghost function TrackOf(m: set<Pair>, d: nat): int
    requires d in DetsOf(m)
  {
    var p :| p in m && p.det == d;
    p.track
  }

  ghost function IndexOf(c: seq<nat>, d: nat): nat
    requires d in c
    ensures IndexOf(c, d) < |c| && c[IndexOf(c, d)] == d
  {
    var k :| 0 <= k < |c| && c[k] == d;
    k
  }

  lemma LeftOver(f: Frame, d: nat)
    requires Elements(f.news) == UnmatchedDets(f) && d < |f.dets| && d !in DetsOf(Greedy(f.cands))
    ensures d in f.news
  {
    assert d in Elements(f.news);
  }

  /** The id under which an update puts detection `d`. */
  ghost function GoesTo(cfg: Config, s: State, f: Frame, d: nat): int
    requires ValidFrame(cfg, s, f) && d < |f.dets|
  {
    if d in DetsOf(Greedy(f.cands)) then TrackOf(Greedy(f.cands), d)
    else
      LeftOver(f, d);
      s.nextId + IndexOf(f.news, d)
  }

  ghost function Goings(cfg: Config, s: State, f: Frame): (went: seq<int>)
    requires ValidFrame(cfg, s, f)
    ensures |went| == |f.dets| && forall d: nat | d < |f.dets| :: went[d] == GoesTo(cfg, s, f, d)
  {
    seq(|f.dets|, d requires 0 <= d < |f.dets| => GoesTo(cfg, s, f, d))
  }

  /** The pair that a matched detection is taken in is the only one with its track or its detection. */
  lemma TakenPair(cfg: Config, s: State, f: Frame, d: nat) returns (p: Pair)
    requires WellFormed(cfg, s) && ValidFrame(cfg, s, f) && d in DetsOf(Greedy(f.cands))
    ensures p in Greedy(f.cands) && p.det == d < |f.dets| && p.track == GoesTo(cfg, s, f, d)
    ensures IsCandidate(cfg, s.objects, f.dets, p) && p.track < s.nextId
    ensures DetOf(Greedy(f.cands), p.track) == d
    ensures forall q | q in Greedy(f.cands) && Conflict(p, q) :: q == p
  {
    var m := Greedy(f.cands);
    FrameInRange(cfg, s, f);
    p :| p in m && p.det == d && p.track == TrackOf(m, d);
    forall q | q in m && Conflict(p, q) ensures q == p {
      assert IsMatching(m);
    }
    var q :| q in m && q.track == p.track && DetOf(m, p.track) == q.det;
    assert Conflict(p, q);
  }

  lemma NewPlace(cfg: Config, s: State, f: Frame, d: nat) returns (k: nat)
    requires WellFormed(cfg, s) && ValidFrame(cfg, s, f) && d < |f.dets| && d !in DetsOf(Greedy(f.cands))
    ensures k < |f.news| && f.news[k] == d && GoesTo(cfg, s, f, d) == s.nextId + k && IsNew(s, f, s.nextId + k)
    ensures s.nextId + k !in s.objects
  {
    LeftOver(f, d);
    k := IndexOf(f.news, d);
  }

  lemma GoesToIsRight(cfg: Config, s: State, f: Frame, d: nat)
    requires WellFormed(cfg, s) && ValidFrame(cfg, s, f) && d < |f.dets|
    ensures var id, t := GoesTo(cfg, s, f, d), Step(cfg, s, f);
            && (id in s.objects || s.nextId <= id < t.nextId)
            && (id in s.objects <==> d in DetsOf(Greedy(f.cands)))
            && id in t.objects && t.objects[id] == Track(f.dets[d].centroid, f.dets[d].bbox, 0)
            && (id in s.objects ==> Apart(cfg, s, f.dets, id, d) <= cfg.maxDistance)
  {
    StepAt(cfg, s, f, GoesTo(cfg, s, f, d));
    if d in DetsOf(Greedy(f.cands)) {
      var p := TakenPair(cfg, s, f, d);
    } else {
      var k := NewPlace(cfg, s, f, d);
    }
  }

  lemma GoesToOnce(cfg: Config, s: State, f: Frame, d: nat, e: nat)
    requires WellFormed(cfg, s) && ValidFrame(cfg, s, f) && d < |f.dets| && e < |f.dets|
    requires GoesTo(cfg, s, f, d) == GoesTo(cfg, s, f, e)
    ensures d == e
  {
    GoesToIsRight(cfg, s, f, d);
    GoesToIsRight(cfg, s, f, e);
    if d in DetsOf(Greedy(f.cands)) {
      var p := TakenPair(cfg, s, f, d);
      var q := TakenPair(cfg, s, f, e);
    } else {
      var j := NewPlace(cfg, s, f, d);
      var k := NewPlace(cfg, s, f, e);
    }
  }

  /** Conversely, just these ids are given a detection. */
  lemma GivenIds(cfg: Config, s: State, f: Frame, id: int)
    requires WellFormed(cfg, s) && ValidFrame(cfg, s, f)
    ensures id in Goings(cfg, s, f) <==> IsNew(s, f, id) || id in TracksOf(Greedy(f.cands))
  {
    var went, m := Goings(cfg, s, f), Greedy(f.cands);
    FrameInRange(cfg, s, f);
    if IsNew(s, f, id) {
      var d := f.news[id - s.nextId];
      assert d in Elements(f.news);
      var k := NewPlace(cfg, s, f, d);
      assert went[d] == id;
    }
    if id in TracksOf(m) {
      var p :| p in m && p.track == id;
      var q := TakenPair(cfg, s, f, p.det);
      assert Conflict(q, p);
      assert went[p.det] == id;
    }
    if id in went {
      var d :| 0 <= d < |went| && went[d] == id;
      if d in DetsOf(m) {
        var p := TakenPair(cfg, s, f, d);
      } else {
        var k := NewPlace(cfg, s, f, d);
      }
    }
  }

  lemma PairSettled(cfg: Config, s: State, f: Frame, id: int, d: nat)
    requires WellFormed(cfg, s) && ValidFrame(cfg, s, f)
    requires id in s.objects && d < |f.dets| && Apart(cfg, s, f.dets, id, d) <= cfg.maxDistance
    ensures Settled(cfg, s, f.dets, Goings(cfg, s, f), id, d)
  {
    var went, m := Goings(cfg, s, f), Greedy(f.cands);
    var p := Pair(Apart(cfg, s, f.dets, id, d), id, d);
    GreedyIsStable(Candidates(cfg, s.objects, f.dets), f.cands);
    assert p in m || BlockedBy(m, p);
    var q :| q in m && Conflict(p, q) && q.dist <= p.dist;
    var r := TakenPair(cfg, s, f, q.det);
    assert Conflict(r, q);
    assert went[q.det] == q.track;
  }

  /** Every update is an outcome. */
  lemma StepIsOutcome(cfg: Config, s: State, f: Frame)
    requires WellFormed(cfg, s) && ValidFrame(cfg, s, f)
    ensures Outcome(cfg, s, f.dets, Step(cfg, s, f), Goings(cfg, s, f))
  {
    var went, t := Goings(cfg, s, f), Step(cfg, s, f);
    forall d: nat | d < |went|
      ensures went[d] in s.objects || s.nextId <= went[d] < t.nextId
      ensures went[d] in t.objects && t.objects[went[d]] == Track(f.dets[d].centroid, f.dets[d].bbox, 0)
      ensures went[d] in s.objects ==> Apart(cfg, s, f.dets, went[d], d) <= cfg.maxDistance
    {
      GoesToIsRight(cfg, s, f, d);
    }
    forall d: nat, e: nat | d < e < |went| ensures went[d] != went[e] {
      if went[d] == went[e] {
        GoesToOnce(cfg, s, f, d, e);
      }
    }
    forall id
      ensures s.nextId <= id < t.nextId ==> id in went
      ensures id !in went ==> (id in t.objects <==> id in s.objects && s.objects[id].age + 1 <= cfg.maxAge)
      ensures id !in went && id in t.objects ==> t.objects[id] == Older(s.objects[id])
    {
      GivenIds(cfg, s, f, id);
      StepAt(cfg, s, f, id);
    }
    forall id, d: nat | id in s.objects && d < |f.dets| && Apart(cfg, s, f.dets, id, d) <= cfg.maxDistance
      ensures Settled(cfg, s, f.dets, went, id, d)
    {
      PairSettled(cfg, s, f, id, d);
    }
  }

  // ---------- and every outcome is what some update does ----------

  /** The pairs of a track from before and the detection it was given. */
  ghost function Given(cfg: Config, s: State, dets: seq<Detection>, went: seq<int>): (m: set<Pair>)
    requires |went| == |dets|
    ensures forall p :: p in m <==> p.det < |dets| && went[p.det] == p.track && p.track in s.objects
                                    && p.dist == Apart(cfg, s, dets, p.track, p.det)
  {
    var m := set d: nat | d < |dets| && went[d] in s.objects :: Pair(Apart(cfg, s, dets, went[d], d), went[d], d);
    assert forall p: Pair | p.det < |dets| && went[p.det] == p.track && p.track in s.objects
        && p.dist == Apart(cfg, s, dets, p.track, p.det) ::
        p == Pair(Apart(cfg, s, dets, went[p.det], p.det), went[p.det], p.det);
    m
  }

  lemma GivenItsDetection(cfg: Config, s: State, dets: seq<Detection>, went: seq<int>, d: nat)
    requires d < |went| == |dets|
    ensures went[d] in s.objects ==> d in DetsOf(Given(cfg, s, dets, went))
  {
    if went[d] in s.objects {
      assert Pair(Apart(cfg, s, dets, went[d], d), went[d], d) in Given(cfg, s, dets, went);
    }
  }

  lemma GivenIsStable(cfg: Config, s: State, dets: seq<Detection>, t: State, went: seq<int>)
    requires Outcome(cfg, s, dets, t, went)
    ensures Stable(Candidates(cfg, s.objects, dets), Given(cfg, s, dets, went))
  {
    var all, m := Candidates(cfg, s.objects, dets), Given(cfg, s, dets, went);
    forall p, q | p in m && q in m && p != q ensures !Conflict(p, q) {
      assert p.det != q.det;
      assert went[p.det] != went[q.det];
    }
    forall p | p in all && p !in m ensures BlockedBy(m, p) {
      assert Settled(cfg, s, dets, went, p.track, p.det);
      if went[p.det] in s.objects && Apart(cfg, s, dets, went[p.det], p.det) <= p.dist {
        assert Pair(Apart(cfg, s, dets, went[p.det], p.det), went[p.det], p.det) in m;
      } else {
        var e: nat :| e < |went| && went[e] == p.track && Apart(cfg, s, dets, p.track, e) <= p.dist;
        assert Pair(Apart(cfg, s, dets, p.track, e), p.track, e) in m;
      }
    }
  }

  ghost function PlaceOf(went: seq<int>, id: int): nat
    requires id in went
    ensures PlaceOf(went, id) < |went| && went[PlaceOf(went, id)] == id
  {
    var d :| 0 <= d < |went| && went[d] == id;
    d
  }

  /** The detections that went to new tracks, in the order of their ids. */
  ghost function NewsOf(s: State, nextId: int, went: seq<int>): (news: seq<nat>)
    requires s.nextId <= nextId && forall id | s.nextId <= id < nextId :: id in went
    ensures |news| == nextId - s.nextId
    ensures forall k | 0 <= k < |news| :: news[k] < |went| && went[news[k]] == s.nextId + k
  {
    var news := seq<nat>(nextId - s.nextId, k requires 0 <= k < nextId - s.nextId => PlaceOf(went, s.nextId + k));
    assert forall k | 0 <= k < |news| :: news[k] == PlaceOf(went, s.nextId + k);
    news
  }

  ghost predicate MadeBy(cfg: Config, s: State, dets: seq<Detection>, t: State, went: seq<int>, f: Frame) {
    && |went| == |dets| && f.dets == dets && s.nextId <= t.nextId
    && (forall id | s.nextId <= id < t.nextId :: id in went)
    && Ordering(Candidates(cfg, s.objects, dets), f.cands)
    && Greedy(f.cands) == Given(cfg, s, dets, went) && f.news == NewsOf(s, t.nextId, went)
  }

  lemma OncePlaced(went: seq<int>, d: nat, e: nat)
    requires forall d, e | 0 <= d < e < |went| :: went[d] != went[e]
    requires d < |went| && e < |went| && went[d] == went[e]
    ensures d == e
  {
  }

  lemma NewsAreTheRest(cfg: Config, s: State, dets: seq<Detection>, t: State, went: seq<int>, f: Frame)
    requires WellFormed(cfg, s) && Outcome(cfg, s, dets, t, went) && MadeBy(cfg, s, dets, t, went, f)
    ensures ValidFrame(cfg, s, f)
  {
    var m := Greedy(f.cands);
    forall d ensures d in Elements(f.news) <==> d in UnmatchedDets(f) {
      if d in DetsOf(m) {
        var p :| p in m && p.det == d;
      }
      if 0 <= d < |dets| && d !in DetsOf(m) {
        GivenItsDetection(cfg, s, dets, went, d);
        var k := went[d] - s.nextId;
        OncePlaced(went, d, f.news[k]);
      }
    }
    forall i, j | 0 <= i < j < |f.news| ensures f.news[i] != f.news[j] {
      assert went[f.news[i]] != went[f.news[j]];
    }
  }

  lemma SameUnder(cfg: Config, s: State, dets: seq<Detection>, t: State, went: seq<int>, f: Frame, id: int)
    requires WellFormed(cfg, s) && Outcome(cfg, s, dets, t, went) && MadeBy(cfg, s, dets, t, went, f)
    requires ValidFrame(cfg, s, f)
    ensures var u := Step(cfg, s, f).objects;
            (id in u <==> id in t.objects) && (id in u ==> u[id] == t.objects[id])
  {
    var m := Greedy(f.cands);
    StepAt(cfg, s, f, id);
    GivenOrNew(cfg, s, dets, t, went, f, id);
    if IsNew(s, f, id) {
      assert went[f.news[id - s.nextId]] == id;
    } else if id in TracksOf(m) {
      var q :| q in m && q.track == id && q.det == DetOf(m, id);
      assert went[q.det] == id;
    }
  }

  lemma GivenOrNew(cfg: Config, s: State, dets: seq<Detection>, t: State, went: seq<int>, f: Frame, id: int)
    requires Outcome(cfg, s, dets, t, went) && MadeBy(cfg, s, dets, t, went, f)
    ensures id in went <==> IsNew(s, f, id) || id in TracksOf(Greedy(f.cands))
  {
    var m := Greedy(f.cands);
    if id in went {
      var d :| 0 <= d < |went| && went[d] == id;
      assert id in s.objects ==> Pair(Apart(cfg, s, dets, id, d), id, d) in m;
    }
    if id in TracksOf(m) {
      var p :| p in m && p.track == id;
      assert went[p.det] == id;
    }
  }

  /** Any outcome is what an update does for some order of its walks. */
  lemma OutcomeIsStep(cfg: Config, s: State, dets: seq<Detection>, t: State, went: seq<int>) returns (f: Frame)
    requires WellFormed(cfg, s) && Outcome(cfg, s, dets, t, went)
    ensures f.dets == dets && ValidFrame(cfg, s, f) && Step(cfg, s, f) == t
  {
    GivenIsStable(cfg, s, dets, t, went);
    var c := EveryStableMatchingIsGreedy(Candidates(cfg, s.objects, dets), Given(cfg, s, dets, went));
    f := Frame(dets, c, NewsOf(s, t.nextId, went));
    NewsAreTheRest(cfg, s, dets, t, went, f);
    var u := Step(cfg, s, f);
    forall id ensures (id in u.objects <==> id in t.objects) && (id in u.objects ==> u.objects[id] == t.objects[id]) {
      SameUnder(cfg, s, dets, t, went, f, id);
    }
    assert u.objects == t.objects;
  }

  /** `t` is an outcome of these detections. */
  ghost predicate CanLeave(cfg: Config, s: State, dets: seq<Detection>, t: State) {
    exists went :: Outcome(cfg, s, dets, t, went)
  }

  ghost predicate SomeStepLeaves(cfg: Config, s: State, dets: seq<Detection>, t: State) {
    exists f :: StepLeaves(cfg, s, dets, f, t)
  }

  ghost predicate StepLeaves(cfg: Config, s: State, dets: seq<Detection>, f: Frame, t: State) {
    f.dets == dets && ValidFrame(cfg, s, f) && t == Step(cfg, s, f)
  }

  /** The updates that the loops can do, over all orders of their walks, are just the outcomes. */
  lemma StepsAreOutcomes(cfg: Config, s: State, dets: seq<Detection>, t: State)
    requires WellFormed(cfg, s)
    ensures SomeStepLeaves(cfg, s, dets, t) <==> CanLeave(cfg, s, dets, t)
  {
    if f :| StepLeaves(cfg, s, dets, f, t) {
      StepIsOutcome(cfg, s, f);
    }
    if went :| Outcome(cfg, s, dets, t, went) {
      var f := OutcomeIsStep(cfg, s, dets, t, went);
      assert StepLeaves(cfg, s, dets, f, t);
    }
  }

  // ---------- the limit, on the table alone ----------

  /** A track from before has been given a detection: it is there, just seen. */
  predicate TookOver(s: State, t: State, id: int) {
    id in s.objects && id in t.objects && t.objects[id].age == 0
  }

  /** A track moves to a detection only within the limit. */
  lemma TakenOverIsNear(cfg: Config, s: State, f: Frame, id: int)
    requires WellFormed(cfg, s) && ValidFrame(cfg, s, f) && TookOver(s, Step(cfg, s, f), id)
    ensures cfg.distance(s.objects[id].centroid, Step(cfg, s, f).objects[id].centroid) <= cfg.maxDistance
  {
    StepIsOutcome(cfg, s, f);
    var went := Goings(cfg, s, f);
    assert id in went;
    var d :| 0 <= d < |went| && went[d] == id;
    assert Apart(cfg, s, f.dets, went[d], d) <= cfg.maxDistance;
  }

  /** A detection gets a new track only if it is beyond the limit of every track that is not given one. */
  lemma NewIsFar(cfg: Config, s: State, f: Frame, id: int, other: int)
    requires WellFormed(cfg, s) && ValidFrame(cfg, s, f)
    requires id in Step(cfg, s, f).objects && id !in s.objects
    requires other in s.objects && !TookOver(s, Step(cfg, s, f), other)
    ensures cfg.distance(s.objects[other].centroid, Step(cfg, s, f).objects[id].centroid) > cfg.maxDistance
  {
    StepIsOutcome(cfg, s, f);
    var went := Goings(cfg, s, f);
    assert id in went;
    var d :| 0 <= d < |went| && went[d] == id;
    forall e | 0 <= e < |went| ensures went[e] != other {
      assert Step(cfg, s, f).objects[went[e]].age == 0;
    }
    assert !Settled(cfg, s, f.dets, went, other, d);
  }

  /** Both for all tracks; and it is the matched tracks that take over. */
  lemma StepKeepsLimit(cfg: Config, s: State, f: Frame)
    requires WellFormed(cfg, s) && ValidFrame(cfg, s, f)
    ensures var t := Step(cfg, s, f);
            && (forall id | id in s.objects :: TookOver(s, t, id) <==> id in TracksOf(Greedy(f.cands)))
            && (forall id | TookOver(s, t, id) ::
                  cfg.distance(s.objects[id].centroid, t.objects[id].centroid) <= cfg.maxDistance)
            && (forall id, k | id in t.objects && id !in s.objects && k in s.objects && !TookOver(s, t, k) ::
                  cfg.distance(s.objects[k].centroid, t.objects[id].centroid) > cfg.maxDistance)
  {
    var t := Step(cfg, s, f);
    forall id | id in s.objects ensures TookOver(s, t, id) <==> id in TracksOf(Greedy(f.cands)) {
      StepAt(cfg, s, f, id);
    }
    forall id | TookOver(s, t, id)
      ensures cfg.distance(s.objects[id].centroid, t.objects[id].centroid) <= cfg.maxDistance
    {
      TakenOverIsNear(cfg, s, f, id);
    }
    forall id, k | id in t.objects && id !in s.objects && k in s.objects && !TookOver(s, t, k)
      ensures cfg.distance(s.objects[k].centroid, t.objects[id].centroid) > cfg.maxDistance
    {
      NewIsFar(cfg, s, f, id, k);
    }
  }
}
