/** What holds of the tracker over whole runs, whatever orders its sets are walked in. */
module TrackerRuns {
  import opened Matching
  import opened TrackerModel
  import opened Tracker

  ghost predicate IsRun(cfg: Config, frames: seq<Frame>, states: seq<State>) {
    && |states| == |frames| + 1
    && states[0] == INIT
    && forall i | 0 <= i < |frames| :: StepsAt(cfg, frames, states, i)
  }

  ghost predicate StepsAt(cfg: Config, frames: seq<Frame>, states: seq<State>, i: nat)
    requires i < |frames| && |states| == |frames| + 1
  {
    IsStep(cfg, states[i], frames[i], states[i + 1])
  }

  ghost predicate IsStep(cfg: Config, s: State, f: Frame, t: State) {
    ValidFrame(cfg, s, f) && t == Step(cfg, s, f)
  }

  ghost predicate MatchedIn(f: Frame, id: int) {
    id in TracksOf(Greedy(f.cands))
  }

  lemma {:induction false} RunWellFormed(cfg: Config, frames: seq<Frame>, states: seq<State>, i: nat)
    requires IsRun(cfg, frames, states) && i < |states|
    ensures WellFormed(cfg, states[i])
  {
    if i > 0 {
      RunWellFormed(cfg, frames, states, i - 1);
      assert StepsAt(cfg, frames, states, i - 1);
      StepWellFormed(cfg, states[i - 1], frames[i - 1]);
    }
  }

  lemma RunStep(cfg: Config, frames: seq<Frame>, states: seq<State>, i: nat)
    requires IsRun(cfg, frames, states) && i < |frames|
    ensures WellFormed(cfg, states[i]) && IsStep(cfg, states[i], frames[i], states[i + 1])
  {
    RunWellFormed(cfg, frames, states, i);
    assert StepsAt(cfg, frames, states, i);
  }

  // ---------- identities ----------

  /** An id that has been issued and is not live never becomes live again. */
  lemma {:induction false} GoneForGood(cfg: Config, frames: seq<Frame>, states: seq<State>, j: nat, k: nat, id: int)
    requires IsRun(cfg, frames, states) && j <= k < |states|
    requires id < states[j].nextId && id !in states[j].objects
    ensures id < states[k].nextId && id !in states[k].objects
  {
    if j < k {
      GoneForGood(cfg, frames, states, j, k - 1, id);
      RunWellFormed(cfg, frames, states, k - 1);
      assert StepsAt(cfg, frames, states, k - 1);
      StepAt(cfg, states[k - 1], frames[k - 1], id);
    }
  }

  /** Ids are never reused: an id's life is one unbroken stretch of updates. */
  lemma LifetimeIsUnbroken(cfg: Config, frames: seq<Frame>, states: seq<State>, i: nat, j: nat, k: nat, id: int)
    requires IsRun(cfg, frames, states) && i <= j <= k < |states|
    requires id in states[i].objects && id in states[k].objects
    ensures id in states[j].objects
  {
    RunWellFormed(cfg, frames, states, i);
    NextIdGrows(cfg, frames, states, i, j);
    if id !in states[j].objects {
      GoneForGood(cfg, frames, states, j, k, id);
    }
  }

  lemma {:induction false} NextIdGrows(cfg: Config, frames: seq<Frame>, states: seq<State>, i: nat, j: nat)
    requires IsRun(cfg, frames, states) && i <= j < |states|
    ensures states[i].nextId <= states[j].nextId
  {
    if i < j {
      NextIdGrows(cfg, frames, states, i, j - 1);
      assert StepsAt(cfg, frames, states, j - 1);
    }
  }

  /** What an update adds to the table was in no earlier state. */
  lemma NewIdsAreUnused(cfg: Config, frames: seq<Frame>, states: seq<State>, i: nat, j: nat, id: int)
    requires IsRun(cfg, frames, states) && j <= i < |frames|
    requires id in states[i + 1].objects && id !in states[i].objects
    ensures id !in states[j].objects
  {
    if id in states[j].objects {
      RunWellFormed(cfg, frames, states, j);
      NextIdGrows(cfg, frames, states, j, i);
      GoneForGood(cfg, frames, states, i, i + 1, id);
    }
  }

  // ---------- ageing ----------

  lemma AgeOnce(cfg: Config, s: State, f: Frame, id: int)
    requires WellFormed(cfg, s) && ValidFrame(cfg, s, f) && id < s.nextId && !MatchedIn(f, id)
    ensures var t := Step(cfg, s, f).objects;
            && (id in t <==> id in s.objects && s.objects[id].age + 1 <= AgeLimit(cfg))
            && (id in t ==> t[id] == Older(s.objects[id]))
  {
    StepAt(cfg, s, f, id);
  }

  /**
    A track seen in update k and matched in none of the updates up to m is in the result of update m
    exactly when m is at most the age limit away, and is then as it was except for its age.
  */
  lemma {:induction false} UnseenTrackLivesOut(cfg: Config, frames: seq<Frame>, states: seq<State>, k: nat, m: nat,
      id: int)
    requires IsRun(cfg, frames, states) && k <= m < |states|
    requires id in states[k].objects && states[k].objects[id].age == 0
    requires forall j | k <= j < m :: !MatchedIn(frames[j], id)
    ensures id in states[m].objects <==> m - k <= AgeLimit(cfg)
    ensures id in states[m].objects ==> states[m].objects[id] == states[k].objects[id].(age := m - k)
  {
    RunWellFormed(cfg, frames, states, k);
    if k < m {
      UnseenTrackLivesOut(cfg, frames, states, k, m - 1, id);
      RunStep(cfg, frames, states, m - 1);
      NextIdGrows(cfg, frames, states, k, m - 1);
      assert !MatchedIn(frames[m - 1], id);
      AgeOnce(cfg, states[m - 1], frames[m - 1], id);
    }
  }

  // ---------- every detection has one track ----------

  /** The update gave detection `d` to track `id`. */
  ghost predicate Assigned(s: State, f: Frame, id: int, d: nat) {
    (IsNew(s, f, id) && f.news[id - s.nextId] == d) || (exists p | p in Greedy(f.cands) :: p.track == id && p.det == d)
  }

  lemma EveryDetectionHasOneTrack(cfg: Config, s: State, f: Frame, d: nat) returns (id: int)
    requires WellFormed(cfg, s) && ValidFrame(cfg, s, f) && d < |f.dets|
    ensures Assigned(s, f, id, d) && forall other | Assigned(s, f, other, d) :: other == id
    ensures id in Step(cfg, s, f).objects && Step(cfg, s, f).objects[id] == Track(f.dets[d].centroid, f.dets[d].bbox, 0)
  {
    if d in DetsOf(Greedy(f.cands)) {
      id := MatchedDetection(cfg, s, f, d);
    } else {
      id := LeftOverDetection(cfg, s, f, d);
    }
  }

  lemma MatchedDetection(cfg: Config, s: State, f: Frame, d: nat) returns (id: int)
    requires WellFormed(cfg, s) && ValidFrame(cfg, s, f) && d in DetsOf(Greedy(f.cands))
    ensures Assigned(s, f, id, d) && forall other | Assigned(s, f, other, d) :: other == id
    ensures d < |f.dets| && id in Step(cfg, s, f).objects && Step(cfg, s, f).objects[id] == Seen(f.dets[d])
  {
    var p :| p in Greedy(f.cands) && p.det == d;
    id := p.track;
    MatchedPair(cfg, s, f, p);
    forall k | 0 <= k < |f.news| ensures f.news[k] != d {
      assert f.news[k] in Elements(f.news);
    }
    GreedyIsMatching(f.cands);
    forall r | r in Greedy(f.cands) && r.det == d ensures r == p {
      assert !(r != p) by { assert Conflict(r, p); }
    }
  }

  lemma LeftOverDetection(cfg: Config, s: State, f: Frame, d: nat) returns (id: int)
    requires WellFormed(cfg, s) && ValidFrame(cfg, s, f) && d < |f.dets| && d !in DetsOf(Greedy(f.cands))
    ensures Assigned(s, f, id, d) && forall other | Assigned(s, f, other, d) :: other == id
    ensures id in Step(cfg, s, f).objects && Step(cfg, s, f).objects[id] == Seen(f.dets[d])
  {
    assert d in Elements(f.news);
    var k :| 0 <= k < |f.news| && f.news[k] == d;
    id := s.nextId + k;
    StepAt(cfg, s, f, id);
  }

  lemma MatchedPair(cfg: Config, s: State, f: Frame, p: Pair)
    requires WellFormed(cfg, s) && ValidFrame(cfg, s, f) && p in Greedy(f.cands)
    ensures p.det < |f.dets| && !IsNew(s, f, p.track)
    ensures p.track in Step(cfg, s, f).objects && Step(cfg, s, f).objects[p.track] == Seen(f.dets[p.det])
  {
    FrameInRange(cfg, s, f);
    StepAt(cfg, s, f, p.track);
    var q :| q in Greedy(f.cands) && q.track == p.track && DetOf(Greedy(f.cands), p.track) == q.det;
    assert !(p != q) by { assert Conflict(p, q); }
  }

  /** The tracks no older than `a`. */
  ghost function Young(s: State, a: nat): set<int> {
    set id | id in s.objects && s.objects[id].age <= a
  }

  lemma {:induction false} NoDuplicatesCount(c: seq<nat>)
    requires NoDuplicates(c)
    ensures |Elements(c)| == |c|
  {
    if c == [] {
      assert Elements(c) == {};
    } else {
      var k := |c| - 1;
      NoDuplicatesCount(c[..k]);
      assert c == c[..k] + [c[k]];
      assert Elements(c) == Elements(c[..k]) + {c[k]};
    }
  }

  lemma DisjointCount(a: set<int>, b: set<int>)
    requires a !! b
    ensures |a + b| == |a| + |b|
  {
  }

  lemma SubsetCount(a: set<int>, b: set<int>)
    requires a <= b
    ensures |a| <= |b| && |b - a| == |b| - |a|
  {
    assert b == a + (b - a);
  }

  lemma IssuedCount(cfg: Config, s: State, f: Frame)
    requires ValidFrame(cfg, s, f)
    ensures |f.news| == |f.dets| - |Greedy(f.cands)|
  {
    var g := Greedy(f.cands);
    FrameInRange(cfg, s, f);
    EndpointCounts(g);
    NoDuplicatesCount(f.news);
    SubsetCount(DetsOf(g), Range(0, |f.dets|));
  }

  lemma SeenTracks(cfg: Config, s: State, f: Frame)
    requires WellFormed(cfg, s) && ValidFrame(cfg, s, f)
    ensures Young(Step(cfg, s, f), 0) == TracksOf(Greedy(f.cands)) + Range(s.nextId, |f.news|)
    ensures TracksOf(Greedy(f.cands)) !! Range(s.nextId, |f.news|)
  {
    var t := Step(cfg, s, f);
    forall id
      ensures id in Young(t, 0) <==> MatchedIn(f, id) || IsNew(s, f, id)
      ensures !(MatchedIn(f, id) && IsNew(s, f, id))
    {
      StepAt(cfg, s, f, id);
    }
  }

  /** After an update exactly as many tracks are new or just seen as there were detections. */
  lemma SeenCount(cfg: Config, s: State, f: Frame)
    requires WellFormed(cfg, s) && ValidFrame(cfg, s, f)
    ensures |Young(Step(cfg, s, f), 0)| == |f.dets|
  {
    IssuedCount(cfg, s, f);
    SeenTracks(cfg, s, f);
    DisjointCount(TracksOf(Greedy(f.cands)), Range(s.nextId, |f.news|));
    FrameInRange(cfg, s, f);
    EndpointCounts(Greedy(f.cands));
  }

  ghost predicate HasDetection(s: State, f: Frame, id: int) {
    exists d: nat | d < |f.dets| :: Assigned(s, f, id, d)
  }

  /** The live tracks whose age is 0 are those that the update gave a detection to. */
  lemma SeenIffAssigned(cfg: Config, s: State, f: Frame, id: int)
    requires WellFormed(cfg, s) && ValidFrame(cfg, s, f) && id in Step(cfg, s, f).objects
    ensures Step(cfg, s, f).objects[id].age == 0 <==> HasDetection(s, f, id)
  {
    StepAt(cfg, s, f, id);
    if IsNew(s, f, id) {
      assert Assigned(s, f, id, f.news[id - s.nextId]);
    } else if MatchedIn(f, id) {
      var p :| p in Greedy(f.cands) && p.track == id;
      MatchedPair(cfg, s, f, p);
      assert Assigned(s, f, id, p.det);
    }
  }

  ghost function Unseen(s: State): set<int> {
    set id | id in s.objects && s.objects[id].age > 0
  }

  /** The others are on top of the detections. */
  lemma UnseenCount(cfg: Config, s: State, f: Frame)
    requires WellFormed(cfg, s) && ValidFrame(cfg, s, f)
    ensures |Step(cfg, s, f).objects| == |f.dets| + |Unseen(Step(cfg, s, f))|
  {
    var t := Step(cfg, s, f);
    StepWellFormed(cfg, s, f);
    SeenCount(cfg, s, f);
    DisjointCount(Young(t, 0), Unseen(t));
    assert t.objects.Keys == Young(t, 0) + Unseen(t);
  }

  lemma AllSeenIff(cfg: Config, s: State, f: Frame)
    requires WellFormed(cfg, s) && ValidFrame(cfg, s, f)
    ensures var t := Step(cfg, s, f);
            |Unseen(t)| == 0 <==> forall id | id in t.objects :: HasDetection(s, f, id)
  {
    var t := Step(cfg, s, f);
    StepWellFormed(cfg, s, f);
    forall id | id in t.objects ensures id in Unseen(t) <==> !HasDetection(s, f, id) {
      SeenIffAssigned(cfg, s, f, id);
    }
    if forall id | id in t.objects :: HasDetection(s, f, id) {
      assert Unseen(t) == {};
    }
  }

  /** Tracks of age 1 to a, after an update. */
  ghost function Survivors(t: State, a: nat): set<int> {
    Young(t, a) - Young(t, 0)
  }

  lemma SurvivorsWereYoung(cfg: Config, s: State, f: Frame, a: nat)
    requires WellFormed(cfg, s) && ValidFrame(cfg, s, f) && a > 0
    ensures Survivors(Step(cfg, s, f), a) <= Young(s, a - 1)
    ensures Greedy(f.cands) == {} && a <= AgeLimit(cfg) ==> Survivors(Step(cfg, s, f), a) == Young(s, a - 1)
  {
    forall id
      ensures id in Survivors(Step(cfg, s, f), a) ==> id in Young(s, a - 1)
      ensures Greedy(f.cands) == {} && a <= AgeLimit(cfg) && id in Young(s, a - 1) ==>
                id in Survivors(Step(cfg, s, f), a)
    {
      StepAt(cfg, s, f, id);
    }
  }

  lemma YoungStep(cfg: Config, s: State, f: Frame, a: nat)
    requires WellFormed(cfg, s) && ValidFrame(cfg, s, f) && a > 0
    ensures |Young(Step(cfg, s, f), a)| <= |f.dets| + |Young(s, a - 1)|
    ensures Greedy(f.cands) == {} && a <= AgeLimit(cfg) ==>
              |Young(Step(cfg, s, f), a)| == |f.dets| + |Young(s, a - 1)|
  {
    var t := Step(cfg, s, f);
    SeenCount(cfg, s, f);
    SubsetCount(Young(t, 0), Young(t, a));
    SurvivorsWereYoung(cfg, s, f, a);
    SubsetCount(Survivors(t, a), Young(s, a - 1));
  }

  // ---------- the table stays small ----------

  ghost function DetectionsIn(frames: seq<Frame>, lo: nat, hi: nat): nat
    requires lo <= hi <= |frames|
  {
    if lo == hi then 0 else DetectionsIn(frames, lo, hi - 1) + |frames[hi - 1].dets|
  }

  function WindowStart(n: nat, length: nat): nat {
    if n < length then 0 else n - length
  }

  lemma YoungRunStep(cfg: Config, frames: seq<Frame>, states: seq<State>, n: nat, a: nat)
    requires IsRun(cfg, frames, states) && n < |frames|
    ensures a == 0 ==> |Young(states[n + 1], a)| == |frames[n].dets|
    ensures a > 0 ==> |Young(states[n + 1], a)| <= |frames[n].dets| + |Young(states[n], a - 1)|
    ensures a > 0 && NeverMatches(frames) && a <= AgeLimit(cfg) ==>
              |Young(states[n + 1], a)| == |frames[n].dets| + |Young(states[n], a - 1)|
  {
    RunStep(cfg, frames, states, n);
    if a == 0 {
      SeenCount(cfg, states[n], frames[n]);
    } else {
      YoungStep(cfg, states[n], frames[n], a);
    }
  }

  ghost predicate NeverMatches(frames: seq<Frame>) {
    forall f | f in frames :: Greedy(f.cands) == {}
  }

  lemma {:induction false} YoungBounded(cfg: Config, frames: seq<Frame>, states: seq<State>, n: nat, a: nat)
    requires IsRun(cfg, frames, states) && n < |states|
    ensures |Young(states[n], a)| <= DetectionsIn(frames, WindowStart(n, a + 1), n)
  {
    if n == 0 {
      assert Young(states[0], a) == {};
    } else {
      YoungRunStep(cfg, frames, states, n - 1, a);
      if a > 0 {
        YoungBounded(cfg, frames, states, n - 1, a - 1);
      }
    }
  }

  lemma {:induction false} YoungExact(cfg: Config, frames: seq<Frame>, states: seq<State>, n: nat, a: nat)
    requires IsRun(cfg, frames, states) && n < |states| && NeverMatches(frames) && a <= AgeLimit(cfg)
    ensures |Young(states[n], a)| == DetectionsIn(frames, WindowStart(n, a + 1), n)
  {
    if n == 0 {
      assert Young(states[0], a) == {};
    } else {
      YoungRunStep(cfg, frames, states, n - 1, a);
      if a > 0 {
        YoungExact(cfg, frames, states, n - 1, a - 1);
      }
    }
  }

  lemma AllAreYoung(cfg: Config, s: State)
    requires WellFormed(cfg, s)
    ensures |Young(s, AgeLimit(cfg))| == |s.objects|
  {
    forall id ensures id in Young(s, AgeLimit(cfg)) <==> id in s.objects.Keys {}
    assert Young(s, AgeLimit(cfg)) == s.objects.Keys;
  }

  /**
    At any time the live tracks are at most as many as the detections of the last AgeLimit + 1 updates;
    and exactly as many when nothing was ever matched.
  */
  lemma LiveTracksBounded(cfg: Config, frames: seq<Frame>, states: seq<State>, n: nat)
    requires IsRun(cfg, frames, states) && n < |states|
    ensures |states[n].objects| <= DetectionsIn(frames, WindowStart(n, AgeLimit(cfg) + 1), n)
    ensures NeverMatches(frames) ==>
              |states[n].objects| == DetectionsIn(frames, WindowStart(n, AgeLimit(cfg) + 1), n)
  {
    RunWellFormed(cfg, frames, states, n);
    AllAreYoung(cfg, states[n]);
    YoungBounded(cfg, frames, states, n, AgeLimit(cfg));
    if NeverMatches(frames) {
      YoungExact(cfg, frames, states, n, AgeLimit(cfg));
    }
  }

  // ---------- how good an update is ----------

  /** The match is at least half the largest one possible, so few ids are issued needlessly. */
  lemma FewNewIds(cfg: Config, s: State, f: Frame, best: set<Pair>)
    requires ValidFrame(cfg, s, f)
    requires IsMatching(best) && best <= Candidates(cfg, s.objects, f.dets)
    ensures 2 * |f.news| <= 2 * |f.dets| - |best|
  {
    var all := Candidates(cfg, s.objects, f.dets);
    GreedyIsStable(all, f.cands);
    AtLeastHalfOfOptimum(all, Greedy(f.cands), best);
    IssuedCount(cfg, s, f);
  }

  /**
    When every candidate passed over lost to a strictly nearer one, the order in which the sets are
    walked shows only in which new detection gets which new id.
  */
  lemma ExistingTracksDecided(cfg: Config, s: State, f: Frame, g: Frame, id: int)
    requires WellFormed(cfg, s) && ValidFrame(cfg, s, f) && ValidFrame(cfg, s, g) && f.dets == g.dets
    requires StrictlyStable(Candidates(cfg, s.objects, f.dets), Greedy(f.cands))
    ensures Step(cfg, s, f).nextId == Step(cfg, s, g).nextId
    ensures Step(cfg, s, f).objects.Keys == Step(cfg, s, g).objects.Keys
    ensures id < s.nextId && id in Step(cfg, s, f).objects ==>
        Step(cfg, s, f).objects[id] == Step(cfg, s, g).objects[id]
    ensures Elements(f.news) == Elements(g.news)
  {
    OrderIndependentIffStrict(Candidates(cfg, s.objects, f.dets), f.cands);
    assert Greedy(f.cands) == Greedy(g.cands);
    IssuedCount(cfg, s, f);
    IssuedCount(cfg, s, g);
    forall i ensures i in Step(cfg, s, f).objects <==> i in Step(cfg, s, g).objects {
      StepAt(cfg, s, f, i);
      StepAt(cfg, s, g, i);
    }
    StepAt(cfg, s, f, id);
    StepAt(cfg, s, g, id);
  }

  // ---------- a tie ----------

  /** A track, and two detections equally far from it: whichever is walked first gets the track. */
  function TiedState(): State {
    State(map[1 := Track((0.0, 0.0), Box(0.0, 0.0, 1.0, 1.0), 0)], 2)
  }

  function TiedDetections(): seq<Detection> {
    [Detection(Box(0.0, 0.0, 1.0, 1.0), (1.0, 0.0)), Detection(Box(0.0, 0.0, 1.0, 1.0), (-1.0, 0.0))]
  }

  predicate Tied(cfg: Config) {
    cfg.distance((0.0, 0.0), (1.0, 0.0)) == cfg.distance((0.0, 0.0), (-1.0, 0.0)) <= cfg.maxDistance
  }

  /** The detection that is walked first, and the other. */
  function TiedFrame(cfg: Config, first: nat, other: nat): Frame {
    var d := cfg.distance((0.0, 0.0), (1.0, 0.0));
    Frame(TiedDetections(), [Pair(d, 1, first), Pair(d, 1, other)], [other])
  }

  lemma TiedCandidates(cfg: Config, first: nat, other: nat)
    requires Tied(cfg) && {first, other} == {0, 1}
    ensures first != other && first < 2 && other < 2
    ensures var f := TiedFrame(cfg, first, other);
            Ordering(Candidates(cfg, TiedState().objects, f.dets), f.cands)
  {
    var f := TiedFrame(cfg, first, other);
    assert 0 in {first, other} && 1 in {first, other};
    assert first in {0, 1} && other in {0, 1};
    forall x ensures IsCandidate(cfg, TiedState().objects, f.dets, x) <==> x in f.cands {
    }
  }

  lemma TiedFrameIsValid(cfg: Config, first: nat, other: nat)
    requires Tied(cfg) && {first, other} == {0, 1}
    ensures WellFormed(cfg, TiedState()) && ValidFrame(cfg, TiedState(), TiedFrame(cfg, first, other))
    ensures Greedy(TiedFrame(cfg, first, other).cands) == {TiedFrame(cfg, first, other).cands[0]}
  {
    var f := TiedFrame(cfg, first, other);
    TiedCandidates(cfg, first, other);
    OnlyTheFirst(f.cands[0], f.cands[1]);
    assert DetsOf({f.cands[0]}) == {first};
    assert Range(0, |f.dets|) == {0, 1};
  }

  lemma OnlyTheFirst(p: Pair, q: Pair)
    requires p.track == q.track && p.det != q.det
    ensures Greedy([p, q]) == {p}
  {
    GreedyOfOne(p);
    assert [p, q][..1] == [p];
    assert p.track in TracksOf({p});
  }

  /** So two updates of one tracker with the same detections leave different tables. */
  lemma TiesShowInTheTable(cfg: Config)
    requires Tied(cfg)
    ensures var s, f, g := TiedState(), TiedFrame(cfg, 0, 1), TiedFrame(cfg, 1, 0);
            && WellFormed(cfg, s) && ValidFrame(cfg, s, f) && ValidFrame(cfg, s, g) && f.dets == g.dets
            && 1 in Step(cfg, s, f).objects && Step(cfg, s, f).objects[1] == Seen(f.dets[0])
            && 1 in Step(cfg, s, g).objects && Step(cfg, s, g).objects[1] == Seen(g.dets[1])
            && Seen(f.dets[0]) != Seen(g.dets[1])
  {
    TiedFrameIsValid(cfg, 0, 1);
    TiedFrameIsValid(cfg, 1, 0);
    FirstTakesTheTrack(cfg, 0, 1);
    FirstTakesTheTrack(cfg, 1, 0);
  }

  lemma FirstTakesTheTrack(cfg: Config, first: nat, other: nat)
    requires Tied(cfg) && {first, other} == {0, 1}
    requires ValidFrame(cfg, TiedState(), TiedFrame(cfg, first, other)) && WellFormed(cfg, TiedState())
    ensures first < 2
    ensures var t := Step(cfg, TiedState(), TiedFrame(cfg, first, other));
            1 in t.objects && t.objects[1] == Seen(TiedDetections()[first])
  {
    var f := TiedFrame(cfg, first, other);
    assert first in {0, 1};
    TiedFrameIsValid(cfg, first, other);
    assert f.cands[0] in Greedy(f.cands);
    MatchedPair(cfg, TiedState(), f, f.cands[0]);
  }

  // ---------- snapshots held by callers ----------

  lemma HasKey<T>(m: map<int, T>, value: T)
    ensures value !in m.Values || exists id :: id in m && m[id] == value
  {
    if !exists id :: id in m && m[id] == value {
      assert value !in m.Values;
    }
  }

  /** How many updates from the first on leave `id` without a detection. */
  ghost function UnseenFor(frames: seq<Frame>, id: int): nat {
    if frames == [] then 0
    else
      var init := frames[..|frames| - 1];
      var n := UnseenFor(init, id);
      if n == |init| && !MatchedIn(frames[|init|], id) then n + 1 else n
  }

  lemma {:induction false} UnseenUntilMatched(frames: seq<Frame>, id: int)
    ensures var n := UnseenFor(frames, id);
            && n <= |frames|
            && (forall i | 0 <= i < n :: !MatchedIn(frames[i], id))
            && (n < |frames| ==> MatchedIn(frames[n], id))
  {
    if frames != [] {
      var init := frames[..|frames| - 1];
      UnseenUntilMatched(init, id);
      assert forall i | 0 <= i < |init| :: frames[i] == init[i];
    }
  }

  lemma UnseenMore(frames: seq<Frame>, f: Frame, id: int)
    ensures UnseenFor(frames + [f], id) ==
            UnseenFor(frames, id) + if UnseenFor(frames, id) == |frames| && !MatchedIn(f, id) then 1 else 0
  {
    assert (frames + [f])[..|frames|] == frames;
  }

  /** What the age of an object that was `age` becomes in the course of `n` updates without a detection. */
  function AgeAfter(cfg: Config, age: int, n: nat): int {
    if age + n <= AgeLimit(cfg) then age + n else AgeLimit(cfg) + 1
  }

  /** Whether the tracker still has, after these updates, the object that it had under `id` at age `age`. */
  ghost predicate StillThere(cfg: Config, age: int, frames: seq<Frame>, id: int) {
    UnseenFor(frames, id) == |frames| && (|frames| == 0 || age + |frames| <= cfg.maxAge)
  }

  /** What one more update does to an object that was `age` at first; `there` if the tracker has it still. */
  lemma HeldStep(cfg: Config, s: State, f: Frame, t: State, frames: seq<Frame>, id: int, age: int, there: bool)
    requires WellFormed(cfg, s) && IsStep(cfg, s, f, t)
    requires 0 <= age <= AgeLimit(cfg) && there == StillThere(cfg, age, frames, id)
    requires there ==> id in s.objects && s.objects[id].age == AgeAfter(cfg, age, UnseenFor(frames, id))
    ensures StillThere(cfg, age, frames + [f], id) <==> there && !MatchedIn(f, id) && id in t.objects
    ensures AgeAfter(cfg, age, UnseenFor(frames + [f], id)) ==
            AgeAfter(cfg, age, UnseenFor(frames, id)) + if there && !MatchedIn(f, id) then 1 else 0
  {
    UnseenMore(frames, f, id);
    UnseenUntilMatched(frames, id);
    StepAt(cfg, s, f, id);
  }

  ghost predicate Has(objects: map<int, TrackedObject>, id: int, o: TrackedObject) {
    id in objects && objects[id] == o
  }

  /** One update, as it looks to whoever holds the objects `mine`. */
  method UpdateHolding(tracker: CentroidTracker, ghost mine: map<int, TrackedObject>, detections: seq<Detection>)
    returns (ghost frame: Frame)
    requires tracker.Valid()
    requires forall id | id in mine :: mine[id].trackId == id
    modifies tracker, tracker.objects.Values`ageFramesUnseen
    ensures tracker.Valid() && frame.dets == detections
    ensures IsStep(tracker.cfg, old(tracker.View()), frame, tracker.View())
    ensures forall o | o in tracker.objects.Values :: o in old(tracker.objects.Values) || fresh(o)
    ensures forall id | id in mine ::
              Has(tracker.objects, id, mine[id]) <==>
              old(Has(tracker.objects, id, mine[id])) && !MatchedIn(frame, id) && id in tracker.objects
    ensures forall id | id in mine ::
              mine[id].ageFramesUnseen == old(mine[id].ageFramesUnseen) +
              if old(Has(tracker.objects, id, mine[id])) && !MatchedIn(frame, id) then 1 else 0
  {
    ghost var before := tracker.objects;
    var snapshot, f := tracker.Update(detections);
    frame := f;
    forall o | o in tracker.objects.Values ensures o in before.Values || fresh(o) {
      HasKey(tracker.objects, o);
    }
    forall id | id in mine ensures Has(before, id, mine[id]) || mine[id] !in before.Values {
      HasKey(before, mine[id]);
    }
  }

  /** One more update; `first` are the ages before all of them. */
  method UpdateOnce(tracker: CentroidTracker, ghost mine: map<int, TrackedObject>, ghost first: map<int, int>,
                    ghost frames: seq<Frame>, detections: seq<Detection>) returns (ghost frame: Frame)
    requires tracker.Valid() && first.Keys == mine.Keys
    requires forall id | id in mine :: mine[id].trackId == id && 0 <= first[id] <= AgeLimit(tracker.cfg)
    requires forall id | id in mine ::
               Has(tracker.objects, id, mine[id]) <==> StillThere(tracker.cfg, first[id], frames, id)
    requires forall id | id in mine ::
               mine[id].ageFramesUnseen == AgeAfter(tracker.cfg, first[id], UnseenFor(frames, id))
    modifies tracker, tracker.objects.Values`ageFramesUnseen
    ensures tracker.Valid() && frame.dets == detections
    ensures IsStep(tracker.cfg, old(tracker.View()), frame, tracker.View())
    ensures forall o | o in tracker.objects.Values :: o in old(tracker.objects.Values) || fresh(o)
    ensures forall id | id in mine ::
              Has(tracker.objects, id, mine[id]) <==> StillThere(tracker.cfg, first[id], frames + [frame], id)
    ensures forall id | id in mine ::
              mine[id].ageFramesUnseen == AgeAfter(tracker.cfg, first[id], UnseenFor(frames + [frame], id))
  {
    ghost var s := tracker.View();
    ghost var there := map id | id in mine :: Has(tracker.objects, id, mine[id]);
    frame := UpdateHolding(tracker, mine, detections);
    forall id | id in mine
      ensures Has(tracker.objects, id, mine[id]) <==> StillThere(tracker.cfg, first[id], frames + [frame], id)
      ensures mine[id].ageFramesUnseen == AgeAfter(tracker.cfg, first[id], UnseenFor(frames + [frame], id))
    {
      HeldStep(tracker.cfg, s, frame, tracker.View(), frames, id, first[id], there[id]);
    }
  }

  lemma AgeMovesIff(cfg: Config, frames: seq<Frame>, id: int, age: int)
    requires 0 <= age <= AgeLimit(cfg)
    ensures AgeAfter(cfg, age, UnseenFor(frames, id)) != age <==> frames != [] && !MatchedIn(frames[0], id)
  {
    UnseenUntilMatched(frames, id);
  }

  /** Update i was given these detections, and led from one state to the next. */
  ghost predicate Happened(cfg: Config, dets: seq<seq<Detection>>, frames: seq<Frame>, states: seq<State>, i: nat)
    requires i < |frames| <= |dets| && |states| == |frames| + 1
  {
    frames[i].dets == dets[i] && IsStep(cfg, states[i], frames[i], states[i + 1])
  }

  lemma RunGrows(cfg: Config, dets: seq<seq<Detection>>, frames: seq<Frame>, states: seq<State>, f: Frame, t: State)
    requires |states| == |frames| + 1 && |frames| < |dets|
    requires f.dets == dets[|frames|] && IsStep(cfg, states[|frames|], f, t)
    requires forall i | 0 <= i < |frames| :: Happened(cfg, dets, frames, states, i)
    ensures forall i | 0 <= i < |frames| + 1 :: Happened(cfg, dets, frames + [f], states + [t], i)
  {
    forall i | 0 <= i < |frames| + 1 ensures Happened(cfg, dets, frames + [f], states + [t], i) {
      if i < |frames| {
        assert Happened(cfg, dets, frames, states, i);
      }
    }
  }

  /** One more update, recorded. */
  method UpdateNext(tracker: CentroidTracker, ghost mine: map<int, TrackedObject>, ghost first: map<int, int>,
                    later: seq<seq<Detection>>, n: nat, ghost frames: seq<Frame>, ghost states: seq<State>)
    returns (ghost moreFrames: seq<Frame>, ghost moreStates: seq<State>)
    requires tracker.Valid() && first.Keys == mine.Keys
    requires forall id | id in mine :: mine[id].trackId == id && 0 <= first[id] <= AgeLimit(tracker.cfg)
    requires n == |frames| < |later| && |states| == |frames| + 1 && states[|frames|] == tracker.View()
    requires forall j | 0 <= j < |frames| :: Happened(tracker.cfg, later, frames, states, j)
    requires forall id | id in mine ::
               Has(tracker.objects, id, mine[id]) <==> StillThere(tracker.cfg, first[id], frames, id)
    requires forall id | id in mine ::
               mine[id].ageFramesUnseen == AgeAfter(tracker.cfg, first[id], UnseenFor(frames, id))
    modifies tracker, tracker.objects.Values`ageFramesUnseen
    ensures tracker.Valid()
    ensures |moreFrames| == |frames| + 1 && |moreStates| == |frames| + 2
    ensures moreStates[0] == states[0] && moreStates[|frames| + 1] == tracker.View()
    ensures forall j | 0 <= j < |frames| + 1 :: Happened(tracker.cfg, later, moreFrames, moreStates, j)
    ensures forall o | o in tracker.objects.Values :: o in old(tracker.objects.Values) || fresh(o)
    ensures forall id | id in mine ::
              Has(tracker.objects, id, mine[id]) <==> StillThere(tracker.cfg, first[id], moreFrames, id)
    ensures forall id | id in mine ::
              mine[id].ageFramesUnseen == AgeAfter(tracker.cfg, first[id], UnseenFor(moreFrames, id))
  {
    var frame := UpdateOnce(tracker, mine, first, frames, later[n]);
    RunGrows(tracker.cfg, later, frames, states, frame, tracker.View());
    moreFrames, moreStates := frames + [frame], states + [tracker.View()];
  }

  /** Any number of updates, as they look to whoever holds the objects that the tracker has at first. */
  method UpdateAll(tracker: CentroidTracker, later: seq<seq<Detection>>)
    returns (ghost frames: seq<Frame>, ghost states: seq<State>)
    requires tracker.Valid()
    modifies tracker, tracker.objects.Values`ageFramesUnseen
    ensures tracker.Valid()
    ensures |frames| == |later| && |states| == |frames| + 1
    ensures states[0] == old(tracker.View()) && states[|frames|] == tracker.View()
    ensures forall i | 0 <= i < |frames| :: Happened(tracker.cfg, later, frames, states, i)
    ensures forall id | id in old(tracker.objects) ::
              old(tracker.objects[id]).ageFramesUnseen ==
              AgeAfter(tracker.cfg, old(tracker.objects[id].ageFramesUnseen), UnseenFor(frames, id))
  {
    frames, states := [], [tracker.View()];
    ghost var mine := tracker.objects;
    ghost var first := map id | id in mine :: mine[id].ageFramesUnseen;
    for i := 0 to |later|
      invariant tracker.Valid()
      invariant |frames| == i && |states| == i + 1 && states[0] == old(tracker.View()) && states[i] == tracker.View()
      invariant forall j | 0 <= j < i :: Happened(tracker.cfg, later, frames, states, j)
      invariant forall o | o in tracker.objects.Values :: o in old(tracker.objects.Values) || fresh(o)
      invariant forall id | id in mine ::
                  Has(tracker.objects, id, mine[id]) <==> StillThere(tracker.cfg, first[id], frames, id)
      invariant forall id | id in mine ::
                  mine[id].ageFramesUnseen == AgeAfter(tracker.cfg, first[id], UnseenFor(frames, id))
    {
      frames, states := UpdateNext(tracker, mine, first, later, i, frames, states);
    }
  }

  /**
    A mapping obtained from an earlier update keeps its ids, centroids and boxes through any later
    updates. It shares objects with the tracker, so the ages of those still tracked may move: each grows
    with every update until the first that matches its track or drops it. An object the tracker has let
    go of does not change at all.
  */
  method HoldSnapshot(tracker: CentroidTracker, held: map<int, TrackedObject>, later: seq<seq<Detection>>)
    returns (ghost frames: seq<Frame>, ghost states: seq<State>)
    requires tracker.Valid()
    modifies tracker, tracker.objects.Values`ageFramesUnseen
    ensures tracker.Valid()
    ensures |frames| == |later| && |states| == |frames| + 1
    ensures states[0] == old(tracker.View()) && states[|frames|] == tracker.View()
    ensures forall i | 0 <= i < |frames| :: Happened(tracker.cfg, later, frames, states, i)
    ensures forall id | id in held ::
              && held[id].trackId == old(held[id].trackId)
              && held[id].centroid == old(held[id].centroid)
              && held[id].bbox == old(held[id].bbox)
    ensures forall id | id in held && held[id] !in old(tracker.objects.Values) ::
              held[id].ageFramesUnseen == old(held[id].ageFramesUnseen)
    ensures forall id | id in held && held[id] in old(tracker.objects.Values) ::
              held[id].ageFramesUnseen ==
              AgeAfter(tracker.cfg, old(held[id].ageFramesUnseen), UnseenFor(frames, held[id].trackId))
    ensures forall id | id in held && held[id] in old(tracker.objects.Values) ::
              held[id].ageFramesUnseen != old(held[id].ageFramesUnseen)
              <==> later != [] && !MatchedIn(frames[0], held[id].trackId)
  {
    ghost var mine := tracker.objects;
    frames, states := UpdateAll(tracker, later);
    forall id | id in held && held[id] in mine.Values
      ensures held[id].trackId in mine && mine[held[id].trackId] == held[id]
      ensures old(0 <= held[id].ageFramesUnseen <= AgeLimit(tracker.cfg))
      ensures AgeAfter(tracker.cfg, old(held[id].ageFramesUnseen), UnseenFor(frames, held[id].trackId))
          != old(held[id].ageFramesUnseen)
          <==> frames != [] && !MatchedIn(frames[0], held[id].trackId)
    {
      HasKey(mine, held[id]);
      AgeMovesIff(tracker.cfg, frames, held[id].trackId, old(held[id].ageFramesUnseen));
    }
  }

  /** For one: after an update without detections, the ages in a mapping from before it are each one more. */
  method HeldAgesMove(tracker: CentroidTracker) returns (held: map<int, TrackedObject>)
    requires tracker.Valid()
    modifies tracker, tracker.objects.Values`ageFramesUnseen
    ensures held == old(tracker.objects)
    ensures forall id | id in held :: held[id].ageFramesUnseen == old(tracker.objects[id].ageFramesUnseen) + 1
  {
    held := tracker.objects;
    var frames, states := HoldSnapshot(tracker, held, [[]]);
    assert Happened(tracker.cfg, [[]], frames, states, 0);
    NothingToMatch(tracker.cfg, states[0], frames[0]);
    forall id | id in held ensures UnseenFor(frames, held[id].trackId) == 1 {
      UnseenUntilMatched(frames, held[id].trackId);
    }
  }

  lemma NothingToMatch(cfg: Config, s: State, f: Frame)
    requires ValidFrame(cfg, s, f) && f.dets == []
    ensures TracksOf(Greedy(f.cands)) == {}
  {
    FrameInRange(cfg, s, f);
    assert Candidates(cfg, s.objects, []) == {};
  }
}
