/**
  The centroid tracker: what one update does to the table of tracks (`TrackerModel`), and the class
  that does it in place (`Tracker`).

  The order in which sets are walked and the order of
  equally distant candidates are not fixed by the program; a `Frame` carries the orders taken, and
  every result below holds for all of them.
*/
module TrackerModel {
  import opened Common
  import opened Matching

  datatype Box = Box(x1: real, y1: real, x2: real, y2: real)

  datatype Detection = Detection(bbox: Box, centroid: Point)

  datatype Track = Track(centroid: Point, bbox: Box, age: int)

  /** `distance` is any function: the results do not depend on the metric. */
  datatype Config = Config(distance: (Point, Point) -> real, maxDistance: real, maxAge: int)

  datatype State = State(objects: map<int, Track>, nextId: int)

  /** One call of update: its detections, the candidates as sorted, the order new tracks are made in. */
  datatype Frame = Frame(dets: seq<Detection>, cands: seq<Pair>, news: seq<nat>)

  const INIT := State(map[], 1)

  predicate IsCandidate(cfg: Config, objects: map<int, Track>, dets: seq<Detection>, p: Pair) {
    && p.track in objects && p.det < |dets|
    && p.dist == cfg.distance(objects[p.track].centroid, dets[p.det].centroid)
    && p.dist <= cfg.maxDistance
  }

  ghost function PairOf(cfg: Config, objects: map<int, Track>, dets: seq<Detection>, id: int, d: nat): Pair
    requires id in objects && d < |dets|
  {
    Pair(cfg.distance(objects[id].centroid, dets[d].centroid), id, d)
  }

  ghost function Candidates(cfg: Config, objects: map<int, Track>, dets: seq<Detection>): (all: set<Pair>)
    ensures forall p :: p in all <==> IsCandidate(cfg, objects, dets, p)
  {
    var all := set id, d: nat | id in objects && d < |dets|
        && IsCandidate(cfg, objects, dets, PairOf(cfg, objects, dets, id, d))
      :: PairOf(cfg, objects, dets, id, d);
    assert forall p | IsCandidate(cfg, objects, dets, p) :: p == PairOf(cfg, objects, dets, p.track, p.det);
    all
  }

  /** lo, lo+1, ..., lo+n-1 */
  function Range(lo: int, n: nat): (s: set<int>)
    ensures forall i :: i in s <==> lo <= i < lo + n
    ensures |s| == n
  {
    if n == 0 then {} else Range(lo, n - 1) + {lo + n - 1}
  }

  lemma HasElement(s: set<int>)
    ensures s == {} || exists i :: i in s
  {
    if !exists i :: i in s {
      assert s == {};
    }
  }

  ghost function UnmatchedDets(f: Frame): set<int> {
    Range(0, |f.dets|) - DetsOf(Greedy(f.cands))
  }

  /** `f` is something update may do in state `s`. */
  ghost predicate ValidFrame(cfg: Config, s: State, f: Frame) {
    && Ordering(Candidates(cfg, s.objects, f.dets), f.cands)
    && NoDuplicates(f.news) && Elements(f.news) == UnmatchedDets(f)
  }

  function Seen(d: Detection): Track {
    Track(d.centroid, d.bbox, 0)
  }

  function Older(t: Track): Track {
    t.(age := t.age + 1)
  }

  ghost function DetOf(m: set<Pair>, id: int): nat
    requires id in TracksOf(m)
  {
    var p :| p in m && p.track == id;
    p.det
  }

  ghost predicate PairsInRange(m: set<Pair>, objects: map<int, Track>, dets: seq<Detection>) {
    forall p | p in m :: p.track in objects && p.det < |dets|
  }

  /** Matched tracks take the place of their detections. */
  ghost function AfterMatch(objects: map<int, Track>, dets: seq<Detection>, m: set<Pair>): map<int, Track>
    requires PairsInRange(m, objects, dets)
  {
    map id | id in objects :: if id in TracksOf(m) then Seen(dets[DetOf(m, id)]) else objects[id]
  }

  ghost predicate NewsInRange(dets: seq<Detection>, news: seq<nat>) {
    forall k | 0 <= k < |news| :: news[k] < |dets|
  }

  /** Each detection listed in `news`, in turn, becomes a track with the next free id. */
  ghost function AfterCreate(objects: map<int, Track>, nextId: int, dets: seq<Detection>, news: seq<nat>): map<int,
      Track>
    requires NewsInRange(dets, news)
  {
    if news == [] then objects else
    var k := |news| - 1;
    AfterCreate(objects, nextId, dets, news[..k])[nextId + k := Seen(dets[news[k]])]
  }

  lemma {:induction false} AfterCreateAt(objects: map<int, Track>, nextId: int, dets: seq<Detection>, news: seq<nat>)
    requires NewsInRange(dets, news)
    ensures var r := AfterCreate(objects, nextId, dets, news);
            && (forall id :: id in r <==> id in objects || nextId <= id < nextId + |news|)
            && (forall id | id in r ::
                  r[id] == if nextId <= id < nextId + |news| then Seen(dets[news[id - nextId]]) else objects[id])
  {
    if news != [] {
      AfterCreateAt(objects, nextId, dets, news[..|news| - 1]);
    }
  }

  /** Unmatched tracks age by one update and are dropped when older than `maxAge`. */
  ghost function AfterAging(objects: map<int, Track>, maxAge: int, unmatched: set<int>): map<int, Track> {
    map id | id in objects && (id in unmatched ==> objects[id].age + 1 <= maxAge) ::
      if id in unmatched then Older(objects[id]) else objects[id]
  }

  lemma FrameInRange(cfg: Config, s: State, f: Frame)
    requires ValidFrame(cfg, s, f)
    ensures IsMatching(Greedy(f.cands)) && Greedy(f.cands) <= Candidates(cfg, s.objects, f.dets)
    ensures PairsInRange(Greedy(f.cands), s.objects, f.dets) && NewsInRange(f.dets, f.news)
  {
    GreedyIsMatching(f.cands);
    forall k | 0 <= k < |f.news| ensures f.news[k] < |f.dets| {
      assert f.news[k] in Elements(f.news);
    }
  }

  /** The tracks once every detection has gone to a track, old or new. */
  ghost function Renewed(cfg: Config, s: State, f: Frame): State
    requires ValidFrame(cfg, s, f)
  {
    FrameInRange(cfg, s, f);
    State(AfterCreate(AfterMatch(s.objects, f.dets, Greedy(f.cands)), s.nextId, f.dets, f.news), s.nextId + |f.news|)
  }

  ghost function Step(cfg: Config, s: State, f: Frame): State
    requires ValidFrame(cfg, s, f)
  {
    var r := Renewed(cfg, s, f);
    r.(objects := AfterAging(r.objects, cfg.maxAge, s.objects.Keys - TracksOf(Greedy(f.cands))))
  }

  /** The age no live track exceeds. */
  function AgeLimit(cfg: Config): nat {
    if cfg.maxAge < 0 then 0 else cfg.maxAge
  }

  ghost predicate WellFormed(cfg: Config, s: State) {
    s.nextId >= 1 && forall id | id in s.objects :: 1 <= id < s.nextId && 0 <= s.objects[id].age <= AgeLimit(cfg)
  }

  predicate IsNew(s: State, f: Frame, id: int) {
    s.nextId <= id < s.nextId + |f.news|
  }

  ghost predicate Survives(cfg: Config, s: State, f: Frame, id: int) {
    id in TracksOf(Greedy(f.cands)) || (id in s.objects && s.objects[id].age + 1 <= cfg.maxAge)
  }

  lemma RenewedAt(cfg: Config, s: State, f: Frame, id: int)
    requires WellFormed(cfg, s) && ValidFrame(cfg, s, f)
    ensures PairsInRange(Greedy(f.cands), s.objects, f.dets) && NewsInRange(f.dets, f.news)
    ensures var r := Renewed(cfg, s, f).objects;
            && (id in r <==> IsNew(s, f, id) || id in s.objects)
            && (id in r ==> r[id] == if IsNew(s, f, id) then Seen(f.dets[f.news[id - s.nextId]])
                                     else if id in TracksOf(Greedy(f.cands)) then
                                       Seen(f.dets[DetOf(Greedy(f.cands), id)])
                                     else s.objects[id])
  {
    FrameInRange(cfg, s, f);
    AfterCreateAt(AfterMatch(s.objects, f.dets, Greedy(f.cands)), s.nextId, f.dets, f.news);
  }

  /** What an update leaves under each id. */
  lemma StepAt(cfg: Config, s: State, f: Frame, id: int)
    requires WellFormed(cfg, s) && ValidFrame(cfg, s, f)
    ensures PairsInRange(Greedy(f.cands), s.objects, f.dets) && NewsInRange(f.dets, f.news)
    ensures id in TracksOf(Greedy(f.cands)) ==> id in s.objects
    ensures id in s.objects ==> !IsNew(s, f, id)
    ensures var t := Step(cfg, s, f).objects;
            && (id in t <==> IsNew(s, f, id) || Survives(cfg, s, f, id))
            && (id in t ==> t[id] == if IsNew(s, f, id) then Seen(f.dets[f.news[id - s.nextId]])
                                     else if id in TracksOf(Greedy(f.cands)) then
                                       Seen(f.dets[DetOf(Greedy(f.cands), id)])
                                     else Older(s.objects[id]))
  {
    RenewedAt(cfg, s, f, id);
  }

  lemma StepWellFormed(cfg: Config, s: State, f: Frame)
    requires WellFormed(cfg, s) && ValidFrame(cfg, s, f)
    ensures WellFormed(cfg, Step(cfg, s, f))
  {
    var t := Step(cfg, s, f);
    forall id | id in t.objects ensures 1 <= id < t.nextId && 0 <= t.objects[id].age <= AgeLimit(cfg) {
      StepAt(cfg, s, f, id);
    }
  }
}

module Tracker {
  import opened Common
  import opened Matching
  import opened TrackerModel
  import opened TrackerOutcome

  class TrackedObject {
    var trackId: int
    var centroid: Point
    var bbox: Box
    var ageFramesUnseen: int

    constructor (trackId: int, centroid: Point, bbox: Box)
      ensures this.trackId == trackId && this.centroid == centroid && this.bbox == bbox && ageFramesUnseen == 0
    {
      this.trackId, this.centroid, this.bbox, ageFramesUnseen := trackId, centroid, bbox, 0;
    }

    ghost function Value(): Track
      reads this
    {
      Track(centroid, bbox, ageFramesUnseen)
    }
  }

  class CentroidTracker {
    const cfg: Config
    var nextId: int
    var objects: map<int, TrackedObject>
    ghost var tracks: map<int, Track>  // what the objects hold

    ghost function View(): State
      reads this
    {
      State(tracks, nextId)
    }

    /** Objects sit under their own id, so no two ids share one; `tracks` says what they hold. */
    ghost predicate Keyed()
      reads this, objects.Values
    {
      objects.Keys == tracks.Keys &&
      forall id | id in objects :: objects[id].trackId == id && objects[id].Value() == tracks[id]
    }

    ghost predicate Valid()
      reads this, objects.Values
    {
      Keyed() && WellFormed(cfg, View())
    }

    constructor (distance: (Point, Point) -> real, maxDistance: real, maxAgeFrames: int)
      ensures cfg == Config(distance, maxDistance, maxAgeFrames) && View() == INIT && Valid()
      ensures nextId == 1 && objects == map[]
    {
      cfg := Config(distance, maxDistance, maxAgeFrames);
      nextId, objects, tracks := 1, map[], map[];
    }

    /**
      One pass over a frame: match, create, age. The result shares its objects with the tracker. A track moves
      no farther than the limit, and a new one is beyond it from every track that is left where it was.
    */
    method Update(detections: seq<Detection>) returns (snapshot: map<int, TrackedObject>, ghost frame: Frame)
      requires Valid()
      modifies this`nextId, this`objects, this`tracks, objects.Values`ageFramesUnseen
      ensures Valid()
      ensures frame.dets == detections && ValidFrame(cfg, old(View()), frame)
      ensures View() == Step(cfg, old(View()), frame)
      ensures snapshot == objects
      ensures forall id | id in objects ::
                if id in old(objects) && id !in TracksOf(Greedy(frame.cands)) then objects[id] == old(objects[id])
                else fresh(objects[id])
      ensures forall id | id in old(objects) ::
                old(objects[id]).ageFramesUnseen ==
                old(objects[id].ageFramesUnseen) + if id in TracksOf(Greedy(frame.cands)) then 0 else 1
      ensures forall id | TookOver(old(View()), View(), id) ::
                cfg.distance(old(tracks)[id].centroid, tracks[id].centroid) <= cfg.maxDistance
      ensures forall id, k | id in tracks && id !in old(tracks)
          && k in old(tracks) && !TookOver(old(View()), View(), k) ::
                cfg.distance(old(tracks)[k].centroid, tracks[id].centroid) > cfg.maxDistance
    {
      ghost var before := View();
      var unmatched := objects.Keys;
      if detections == [] {
        frame := Frame([], [], []);
        NothingToRenew(cfg, before);
      } else {
        unmatched, frame := MatchAndCreate(detections);
      }
      AgeUnmatched(unmatched);
      StepWellFormed(cfg, before, frame);
      StepKeepsLimit(cfg, before, frame);
      return objects, frame;
    }

    /** Matches tracks to detections and makes tracks for the rest; returns the tracks left unmatched. */
    method MatchAndCreate(detections: seq<Detection>) returns (unmatched: set<int>, ghost frame: Frame)
      requires Valid()
      modifies this`nextId, this`objects, this`tracks
      ensures Keyed()
      ensures frame.dets == detections && ValidFrame(cfg, old(View()), frame)
      ensures unmatched == old(objects.Keys) - TracksOf(Greedy(frame.cands)) && unmatched <= objects.Keys
      ensures View() == Renewed(cfg, old(View()), frame)
      ensures forall id | id in objects ::
                if id in unmatched then objects[id] == old(objects[id]) else fresh(objects[id])
    {
      ghost var before := View();
      var pairs := CandidatePairs(detections);
      var sorted := SortByDistance(pairs);
      var tracksBefore := objects.Keys;
      GreedyIsMatching(sorted);
      var matchedTracks, matchedDets := MatchGreedily(detections, sorted);
      var news := CreateTracks(detections, Range(0, |detections|) - matchedDets);
      unmatched := tracksBefore - matchedTracks;
      frame := Frame(detections, sorted, news);
    }

    /** All pairs within reach, the tracks and the detections walked in any order. */
    method CandidatePairs(detections: seq<Detection>) returns (pairs: seq<Pair>)
      requires Keyed()
      ensures NoDuplicates(pairs) && Elements(pairs) == Candidates(cfg, tracks, detections)
    {
      pairs := [];
      var ids := objects.Keys;
      while ids != {}
        invariant ids <= objects.Keys
        invariant NoDuplicates(pairs)
        invariant forall p :: p in pairs <==> IsCandidate(cfg, tracks, detections, p) && p.track !in ids
      {
        HasElement(ids);
        var id :| id in ids;
        ids := ids - {id};
        var centroid := objects[id].centroid;
        assert centroid == tracks[id].centroid;
        var dets := Range(0, |detections|);
        while dets != {}
          invariant forall d | d in dets :: 0 <= d < |detections|
          invariant NoDuplicates(pairs)
          invariant forall p :: p in pairs <==>
                      IsCandidate(cfg, tracks, detections, p) && p.track !in ids && (p.track == id ==> p.det !in dets)
        {
          HasElement(dets);
          var d: int :| d in dets;
          dets := dets - {d};
          var p := Pair(cfg.distance(centroid, detections[d].centroid), id, d);
          if p.dist <= cfg.maxDistance {
            pairs := pairs + [p];
          }
        }
      }
    }

    static method SortByDistance(pairs: seq<Pair>) returns (sorted: seq<Pair>)
      requires NoDuplicates(pairs)
      ensures Ordering(Elements(pairs), sorted)
    {
      sorted := [];
      for i := 0 to |pairs|
        invariant Ordering(Elements(pairs[..i]), sorted)
      {
        assert Elements(pairs[..i + 1]) == Elements(pairs[..i]) + {pairs[i]};
        assert pairs[i] !in Elements(pairs[..i]);
        sorted := Insert(sorted, pairs[i]);
      }
      assert pairs[..|pairs|] == pairs;
    }

    static method Insert(sorted: seq<Pair>, p: Pair) returns (r: seq<Pair>)
      requires Ordering(Elements(sorted), sorted) && p !in Elements(sorted)
      ensures Ordering(Elements(sorted) + {p}, r)
    {
      var k := 0;
      while k < |sorted| && sorted[k].dist <= p.dist
        invariant k <= |sorted|
        invariant forall j | 0 <= j < k :: sorted[j].dist <= p.dist
      {
        k := k + 1;
      }
      r := sorted[..k] + [p] + sorted[k..];
      InsertedInOrder(sorted, p, k);
    }

    /** Puts a new object for `d` under `id`. */
    method Place(id: int, d: Detection)
      requires Keyed()
      modifies this`objects, this`tracks
      ensures Keyed() && id in objects && fresh(objects[id]) && objects == old(objects)[id := objects[id]]
      ensures tracks == old(tracks)[id := Seen(d)]
    {
      var o := new TrackedObject(id, d.centroid, d.bbox);
      objects := objects[id := o];
      tracks := tracks[id := Seen(d)];
    }

    /** The scan: a pair is taken when both ends are free, and its track becomes a new object. */
    method MatchGreedily(detections: seq<Detection>, sorted: seq<Pair>)
      returns (matchedTracks: set<int>, matchedDets: set<int>)
      requires Keyed() && PairsInRange(Elements(sorted), tracks, detections)
      modifies this`objects, this`tracks
      ensures Keyed() && objects.Keys == old(objects.Keys)
      ensures matchedTracks == TracksOf(Greedy(sorted)) && matchedDets == DetsOf(Greedy(sorted))
      ensures PairsInRange(Greedy(sorted), old(tracks), detections)
      ensures tracks == AfterMatch(old(tracks), detections, Greedy(sorted))
      ensures forall id | id in objects ::
                if id in matchedTracks then fresh(objects[id]) else objects[id] == old(objects[id])
    {
      matchedTracks, matchedDets := {}, {};
      ghost var g, before := {}, tracks;
      assert AfterMatch(before, detections, {}) == before;
      for i := 0 to |sorted|
        invariant g == Greedy(sorted[..i]) && g <= Elements(sorted) && IsMatching(g)
        invariant matchedTracks == TracksOf(g) && matchedDets == DetsOf(g)
        invariant Keyed() && objects.Keys == old(objects.Keys)
        invariant tracks == AfterMatch(before, detections, g)
        invariant forall id | id in objects ::
                    if id in matchedTracks then fresh(objects[id]) else objects[id] == old(objects[id])
      {
        var p := sorted[i];
        assert sorted[..i + 1][..i] == sorted[..i];
        assert p in Elements(sorted);
        if p.track in matchedTracks || p.det in matchedDets {
        } else {
          TakingAPair(before, detections, g, p);
          Place(p.track, detections[p.det]);
          matchedTracks := matchedTracks + {p.track};
          matchedDets := matchedDets + {p.det};
          g := g + {p};
        }
      }
      assert sorted[..|sorted|] == sorted;
    }

    /** One new track per detection left over, the detections taken in any order. */
    method CreateTracks(detections: seq<Detection>, unmatched: set<int>) returns (news: seq<nat>)
      requires Keyed() && forall id | id in objects :: id < nextId
      requires forall d | d in unmatched :: 0 <= d < |detections|
      modifies this`objects, this`tracks, this`nextId
      ensures Keyed() && NoDuplicates(news) && Elements(news) == unmatched
      ensures NewsInRange(detections, news)
      ensures nextId == old(nextId) + |news|
      ensures tracks == AfterCreate(old(tracks), old(nextId), detections, news)
      ensures old(objects.Keys) <= objects.Keys
      ensures forall id | id in objects ::
          if id in old(objects) then objects[id] == old(objects[id]) else fresh(objects[id])
    {
      news := [];
      ghost var before := tracks;
      var left := unmatched;
      while left != {}
        invariant left <= unmatched && NoDuplicates(news) && forall d: int ::
            d in news <==> d in unmatched && d !in left
        invariant NewsInRange(detections, news)
        invariant nextId == old(nextId) + |news|
        invariant Keyed() && tracks == AfterCreate(before, old(nextId), detections, news)
        invariant old(objects.Keys) <= objects.Keys
        invariant forall id | id in objects ::
            if id in old(objects) then objects[id] == old(objects[id]) else fresh(objects[id])
        invariant forall id | id in objects :: id < nextId
      {
        HasElement(left);
        var d: int :| d in left;
        left := left - {d};
        OneMoreCreated(before, old(nextId), detections, news, d);
        Place(nextId, detections[d]);
        nextId := nextId + 1;
        news := news + [d];
      }
      SameElements(news, unmatched);
    }

    /** Ages the given tracks in place, then drops those that have become too old. */
    method AgeUnmatched(unmatched: set<int>)
      requires Keyed() && unmatched <= objects.Keys
      modifies this`objects, this`tracks, (set id | id in unmatched && id in objects :: objects[id])`ageFramesUnseen
      ensures Keyed() && tracks == AfterAging(old(tracks), cfg.maxAge, unmatched)
      ensures forall id | id in objects :: id in old(objects) && objects[id] == old(objects[id])
      ensures forall id | id in old(objects) ::
                old(objects[id]).ageFramesUnseen ==
                old(objects[id].ageFramesUnseen) + if id in unmatched then 1 else 0
    {
      var toDrop := IncrementAges(unmatched);
      DropTracks(toDrop);
      tracks := AfterAging(tracks, cfg.maxAge, unmatched);
    }

    method IncrementAges(unmatched: set<int>) returns (toDrop: set<int>)
      requires Keyed() && unmatched <= objects.Keys
      modifies (set id | id in unmatched && id in objects :: objects[id])`ageFramesUnseen
      ensures forall id | id in objects :: objects[id].trackId == id &&
                objects[id].Value() == if id in unmatched then Older(tracks[id]) else tracks[id]
      ensures forall id :: id in toDrop <==> id in unmatched && tracks[id].age + 1 > cfg.maxAge
    {
      toDrop := {};
      var left := unmatched;
      while left != {}
        invariant left <= unmatched
        invariant forall id | id in objects :: objects[id].trackId == id &&
                    objects[id].Value() == if id in unmatched && id !in left then Older(tracks[id]) else tracks[id]
        invariant forall id :: id in toDrop <==> id in unmatched && id !in left && tracks[id].age + 1 > cfg.maxAge
      {
        HasElement(left);
        var id :| id in left;
        left := left - {id};
        var obj := objects[id];
        obj.ageFramesUnseen := obj.ageFramesUnseen + 1;
        if obj.ageFramesUnseen > cfg.maxAge {
          toDrop := toDrop + {id};
        }
      }
    }

    method DropTracks(toDrop: set<int>)
      modifies this`objects
      ensures objects == old(objects) - toDrop
    {
      var drops := toDrop;
      while drops != {}
        invariant drops <= toDrop && objects == old(objects) - (toDrop - drops)
      {
        HasElement(drops);
        var id :| id in drops;
        drops := drops - {id};
        objects := objects - {id};
      }
      assert toDrop - drops == toDrop;
    }
  }

  lemma OneMoreCreated(objects: map<int, Track>, nextId: int, dets: seq<Detection>, news: seq<nat>, d: nat)
    requires NewsInRange(dets, news) && d < |dets|
    ensures NewsInRange(dets, news + [d])
    ensures AfterCreate(objects, nextId, dets, news + [d])
         == AfterCreate(objects, nextId, dets, news)[nextId + |news| := Seen(dets[d])]
  {
    assert (news + [d])[..|news|] == news;
  }

  lemma SameElements(news: seq<nat>, ds: set<int>)
    requires forall d: int :: d in news <==> d in ds
    ensures Elements(news) == ds
  {
    forall d: int ensures d in Elements(news) <==> d in ds {}
  }

  lemma InsertedInOrder(sorted: seq<Pair>, p: Pair, k: nat)
    requires k <= |sorted| && Ordering(Elements(sorted), sorted) && p !in Elements(sorted)
    requires forall j | 0 <= j < k :: sorted[j].dist <= p.dist
    requires forall j | k <= j < |sorted| :: p.dist <= sorted[j].dist
    ensures Ordering(Elements(sorted) + {p}, sorted[..k] + [p] + sorted[k..])
  {
    var r := sorted[..k] + [p] + sorted[k..];
    assert p !in sorted;
    var le := (q: Pair, q': Pair) => true;
    RankedInsertion(sorted, p, k, le);
    forall i, j | 0 <= i < j < |r| ensures r[i].dist <= r[j].dist {
      assert RankedBefore(r[i], r[j], le);
    }
    assert sorted == sorted[..k] + sorted[k..];
    forall x ensures x in r <==> x in sorted || x == p {}
  }

  lemma TakingAPair(objects: map<int, Track>, dets: seq<Detection>, m: set<Pair>, p: Pair)
    requires PairsInRange(m + {p}, objects, dets) && IsMatching(m)
    requires p.track !in TracksOf(m) && p.det !in DetsOf(m)
    ensures IsMatching(m + {p})
    ensures TracksOf(m + {p}) == TracksOf(m) + {p.track} && DetsOf(m + {p}) == DetsOf(m) + {p.det}
    ensures AfterMatch(objects, dets, m + {p}) == AfterMatch(objects, dets, m)[p.track := Seen(dets[p.det])]
  {
    forall q | q in m ensures !Conflict(p, q) && !Conflict(q, p) {
      assert q.track in TracksOf(m) && q.det in DetsOf(m);
    }
    forall id | id in TracksOf(m) ensures id != p.track && DetOf(m + {p}, id) == DetOf(m, id) {
      var q :| q in m && q.track == id;
      assert q in m + {p};
    }
  }

  /** Without detections nothing is renewed, so the update only ages. */
  lemma NothingToRenew(cfg: Config, s: State)
    ensures var f := Frame([], [], []);
            && ValidFrame(cfg, s, f) && Renewed(cfg, s, f) == s && TracksOf(Greedy(f.cands)) == {}
  {
    assert Candidates(cfg, s.objects, []) == {};
    assert ValidFrame(cfg, s, Frame([], [], []));
    assert AfterMatch(s.objects, [], {}) == s.objects;
  }
}
