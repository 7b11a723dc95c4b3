/**
  Greedy nearest-pair matching: the candidate pairs are scanned in order of distance and a pair is
  taken unless its track or its detection is taken already.

  The pairs are those of one frame. `Stable` is the declarative description of what the scan is for;
  the scan is tied to it in both directions (`GreedyIsStable`, `EveryStableMatchingIsGreedy`), so the
  outcomes of the scan over all orders of equally distant pairs are exactly the stable matchings.
*/
module Matching {

  datatype Pair = Pair(dist: real, track: int, det: nat)

  predicate Conflict(p: Pair, q: Pair) {
    p.track == q.track || p.det == q.det
  }

  ghost predicate IsMatching(m: set<Pair>) {
    forall p, q | p in m && q in m && p != q :: !Conflict(p, q)
  }

  ghost predicate Sorted(c: seq<Pair>) {
    forall i, j | 0 <= i < j < |c| :: c[i].dist <= c[j].dist
  }

  ghost predicate NoDuplicates<T>(c: seq<T>) {
    forall i, j | 0 <= i < j < |c| :: c[i] != c[j]
  }

  ghost function Elements<T>(c: seq<T>): set<T> {
    set x | x in c
  }

  /** `c` lists the pairs of `all`, nearest first; equally distant pairs come in any order. */
  ghost predicate Ordering(all: set<Pair>, c: seq<Pair>) {
    Sorted(c) && NoDuplicates(c) && Elements(c) == all
  }

  ghost function TracksOf(m: set<Pair>): set<int> {
    set p | p in m :: p.track
  }

  ghost function DetsOf(m: set<Pair>): set<nat> {
    set p | p in m :: p.det
  }

  /** The pairs the scan has taken once it has gone through `c`. */
  ghost function Greedy(c: seq<Pair>): set<Pair> {
    if c == [] then {} else
    var m := Greedy(c[..|c| - 1]);
    var p := c[|c| - 1];
    if p.track in TracksOf(m) || p.det in DetsOf(m) then m else m + {p}
  }

  /** No candidate is passed over except for one that is at least as near and shares an endpoint. */
  ghost predicate Stable(all: set<Pair>, m: set<Pair>) {
    && m <= all
    && IsMatching(m)
    && forall p | p in all && p !in m :: BlockedBy(m, p)
  }

  ghost predicate BlockedBy(m: set<Pair>, p: Pair) {
    exists q | q in m :: Conflict(p, q) && q.dist <= p.dist
  }

  /** Every candidate passed over lost to one that is strictly nearer. */
  ghost predicate StrictlyStable(all: set<Pair>, m: set<Pair>) {
    && Stable(all, m)
    && forall p | p in all && p !in m :: StrictlyBlockedBy(m, p)
  }

  ghost predicate StrictlyBlockedBy(m: set<Pair>, p: Pair) {
    exists q | q in m :: Conflict(p, q) && q.dist < p.dist
  }

  // ---------- what the scan computes ----------

  lemma {:induction false} GreedyIsMatching(c: seq<Pair>)
    ensures IsMatching(Greedy(c)) && Greedy(c) <= Elements(c)
  {
    if c != [] {
      GreedyIsMatching(c[..|c| - 1]);
    }
  }

  lemma {:induction false} GreedyIsStable(all: set<Pair>, c: seq<Pair>)
    requires Ordering(all, c)
    ensures Stable(all, Greedy(c))
  {
    GreedyIsMatching(c);
    forall p | p in all && p !in Greedy(c)
      ensures BlockedBy(Greedy(c), p)
    {
      var i :| 0 <= i < |c| && c[i] == p;
      PassedOver(c, i);
    }
  }

  lemma PassedOver(c: seq<Pair>, i: nat)
    requires Sorted(c) && i < |c| && c[i] !in Greedy(c)
    ensures BlockedBy(Greedy(c), c[i])
  {
    var j := LostTo(c, i);
  }

  /** What is not taken lost to something taken before. */
  lemma LostTo(c: seq<Pair>, i: nat) returns (j: nat)
    requires i < |c| && c[i] !in Greedy(c)
    ensures j < i && c[j] in Greedy(c) && Conflict(c[i], c[j])
  {
    var m := Greedy(c[..i]);
    GreedyGrows(c, i);
    GreedyGrows(c, i + 1);
    GreedyMore(c, i);
    GreedyIsMatching(c[..i]);
    var q :| q in m && Conflict(c[i], q);
    j :| 0 <= j < i && c[j] == q;
  }

  lemma GreedyMore(c: seq<Pair>, i: nat)
    requires i < |c|
    ensures var m := Greedy(c[..i]);
            Greedy(c[..i + 1]) == if c[i].track in TracksOf(m) || c[i].det in DetsOf(m) then m else m + {c[i]}
  {
    assert c[..i + 1][..i] == c[..i];
  }

  lemma {:induction false} GreedyGrows(c: seq<Pair>, k: nat)
    requires k <= |c|
    ensures Greedy(c[..k]) <= Greedy(c)
  {
    if k < |c| {
      var d := c[..|c| - 1];
      GreedyGrows(d, k);
      assert d[..k] == c[..k];
    } else {
      assert c[..k] == c;
    }
  }

  // ---------- and conversely: every stable matching is an outcome of the scan ----------

  type Order = (Pair, Pair) -> bool

  ghost predicate TotalPreorder(le: Order) {
    (forall p, q :: le(p, q) || le(q, p)) && (forall p, q, r :: le(p, q) && le(q, r) ==> le(p, r))
  }

  ghost predicate RankedBefore(p: Pair, q: Pair, le: Order) {
    p.dist < q.dist || (p.dist == q.dist && le(p, q))
  }

  /** `c` is sorted by distance and, among equally distant pairs, by `le`. */
  ghost predicate RankedSorted(c: seq<Pair>, le: Order) {
    forall i, j | 0 <= i < j < |c| :: RankedBefore(c[i], c[j], le)
  }

  lemma {:induction false} Arrange(all: set<Pair>, le: Order) returns (c: seq<Pair>)
    requires TotalPreorder(le)
    ensures Ordering(all, c) && RankedSorted(c, le)
  {
    if all == {} {
      c := [];
    } else {
      var p :| p in all;
      var d := Arrange(all - {p}, le);
      c := InsertRanked(d, p, le);
      assert Elements(c) == Elements(d) + {p};
    }
  }

  lemma InsertRanked(d: seq<Pair>, p: Pair, le: Order) returns (c: seq<Pair>)
    requires TotalPreorder(le) && RankedSorted(d, le) && NoDuplicates(d) && p !in Elements(d)
    ensures RankedSorted(c, le) && NoDuplicates(c) && Elements(c) == Elements(d) + {p}
  {
    var i := 0;
    while i < |d| && RankedBefore(d[i], p, le)
      invariant i <= |d|
      invariant forall k | 0 <= k < i :: RankedBefore(d[k], p, le)
    {
      i := i + 1;
    }
    c := d[..i] + [p] + d[i..];
    assert d == d[..i] + d[i..];
    assert p !in d;
    forall k | i <= k < |d| ensures RankedBefore(p, d[k], le) {
      assert k > i ==> RankedBefore(d[i], d[k], le);
    }
    RankedInsertion(d, p, i, le);
    forall x ensures x in c <==> x in d || x == p {}
  }

  lemma RankedInsertion(d: seq<Pair>, p: Pair, i: nat, le: Order)
    requires i <= |d| && RankedSorted(d, le) && NoDuplicates(d) && p !in d
    requires forall k | 0 <= k < i :: RankedBefore(d[k], p, le)
    requires forall k | i <= k < |d| :: RankedBefore(p, d[k], le)
    ensures var c := d[..i] + [p] + d[i..]; RankedSorted(c, le) && NoDuplicates(c)
  {
    var c := d[..i] + [p] + d[i..];
    assert forall k | 0 <= k < |c| :: c[k] == if k < i then d[k] else if k == i then p else d[k - 1];
  }

  /** Among the first `k`, what `m` passes over comes after everything in `m` that is as near. */
  ghost predicate PreferredFirst(m: set<Pair>, c: seq<Pair>, k: nat)
    requires k <= |c|
  {
    forall q, i | 0 <= i < k && c[i] !in m && q in m && q.dist <= c[i].dist :: q in c[..i]
  }

  lemma RankedIsPreferredFirst(all: set<Pair>, m: set<Pair>, c: seq<Pair>, k: nat, le: Order)
    requires k <= |c| && Elements(c) == all && m <= all && RankedSorted(c, le)
    requires forall q, i | 0 <= i < k && c[i] !in m && q in m :: !le(c[i], q)
    ensures PreferredFirst(m, c, k)
  {
    forall q, i | 0 <= i < k && c[i] !in m && q in m && q.dist <= c[i].dist
      ensures q in c[..i]
    {
      assert q in Elements(c);
      var j :| 0 <= j < |c| && c[j] == q;
      assert !RankedBefore(c[i], c[j], le);
    }
  }

  /** With the pairs of `m` first among equals, the scan of any prefix takes just the pairs of `m`. */
  lemma {:induction false} PreferredScan(all: set<Pair>, m: set<Pair>, c: seq<Pair>, k: nat)
    requires Stable(all, m) && Elements(c) <= all && k <= |c| && PreferredFirst(m, c, k)
    ensures Greedy(c[..k]) == m * Elements(c[..k])
  {
    if k > 0 {
      PreferredScan(all, m, c, k - 1);
      GreedyMore(c, k - 1);
      assert c[k - 1] in Elements(c);
      assert Elements(c[..k]) == Elements(c[..k - 1]) + {c[k - 1]};
      PreferredStep(all, m, m * Elements(c[..k - 1]), c[k - 1]);
    }
  }

  lemma PreferredStep(all: set<Pair>, m: set<Pair>, g: set<Pair>, p: Pair)
    requires Stable(all, m) && g <= m && p in all
    requires p !in m ==> forall q | q in m && q.dist <= p.dist :: q in g
    ensures (p.track in TracksOf(g) || p.det in DetsOf(g)) <==> p !in m || p in g
  {
    if p in m {
      assert p !in g ==> forall q | q in g :: !Conflict(p, q);
    } else {
      assert BlockedBy(m, p);
      var q :| q in m && Conflict(p, q) && q.dist <= p.dist;
      assert q in g;
    }
  }

  lemma EveryStableMatchingIsGreedy(all: set<Pair>, m: set<Pair>) returns (c: seq<Pair>)
    requires Stable(all, m)
    ensures Ordering(all, c) && Greedy(c) == m
  {
    var le := (p: Pair, q: Pair) => p in m || q !in m;
    c := Arrange(all, le);
    RankedIsPreferredFirst(all, m, c, |c|, le);
    PreferredScan(all, m, c, |c|);
    assert c[..|c|] == c;
    assert m * all == m;
  }

  // ---------- size: never less than half of what is possible ----------

  lemma {:induction false} CoveredByTracks(m: set<Pair>, ts: set<int>)
    requires IsMatching(m) && forall p | p in m :: p.track in ts
    ensures |m| <= |ts|
  {
    if m != {} {
      var p :| p in m;
      forall q | q in m - {p} ensures q.track in ts - {p.track} { assert !Conflict(q, p); }
      CoveredByTracks(m - {p}, ts - {p.track});
    }
  }

  lemma {:induction false} CoveredByDets(m: set<Pair>, ds: set<nat>)
    requires IsMatching(m) && forall p | p in m :: p.det in ds
    ensures |m| <= |ds|
  {
    if m != {} {
      var p :| p in m;
      forall q | q in m - {p} ensures q.det in ds - {p.det} { assert !Conflict(q, p); }
      CoveredByDets(m - {p}, ds - {p.det});
    }
  }

  lemma OneEndpointLess(m: set<Pair>, p: Pair)
    requires IsMatching(m) && p in m
    ensures TracksOf(m - {p}) == TracksOf(m) - {p.track} && DetsOf(m - {p}) == DetsOf(m) - {p.det}
  {
    forall q | q in m - {p} ensures q.track != p.track && q.det != p.det { assert !Conflict(q, p); }
  }

  /** A matching has as many tracks, and as many detections, as it has pairs. */
  lemma {:induction false} EndpointCounts(m: set<Pair>)
    requires IsMatching(m)
    ensures |TracksOf(m)| == |m| == |DetsOf(m)|
  {
    if m == {} {
      assert TracksOf(m) == {} && DetsOf(m) == {};
    } else {
      var p :| p in m;
      EndpointCounts(m - {p});
      OneEndpointLess(m, p);
    }
  }

  lemma AtLeastHalfOfOptimum(all: set<Pair>, m: set<Pair>, best: set<Pair>)
    requires Stable(all, m)
    requires IsMatching(best) && best <= all
    ensures |best| <= 2 * |m|
  {
    var byTrack := set p | p in best && p.track in TracksOf(m);
    var byDet := set p | p in best && p.det in DetsOf(m);
    forall p | p in best ensures p in byTrack + byDet {
      if p !in m {
        assert BlockedBy(m, p);
      }
    }
    assert best == byTrack + byDet;
    CoveredByTracks(byTrack, TracksOf(m));
    CoveredByDets(byDet, DetsOf(m));
    EndpointCounts(m);
  }

  /** The factor two is attained: the nearest pair can spoil two pairs that were possible together. */
  lemma HalfIsAttained() returns (all: set<Pair>, m: set<Pair>, best: set<Pair>)
    ensures Stable(all, m) && IsMatching(best) && best <= all && m != {} && |best| == 2 * |m|
  {
    var p, q, r := Pair(1.0, 1, 0), Pair(2.0, 1, 1), Pair(2.0, 2, 0);
    all, m, best := {p, q, r}, {p}, {q, r};
    assert Conflict(q, p) && Conflict(r, p);
  }

  // ---------- when the order of equally distant pairs does not matter ----------

  lemma {:induction false} StrictlyStableIsUnique(all: set<Pair>, m: set<Pair>, n: set<Pair>)
    requires StrictlyStable(all, m) && Stable(all, n)
    ensures m == n
  {
    var diff := (m - n) + (n - m);
    if diff != {} {
      var p := Nearest(diff);
      var r := DifferenceDescends(all, m, n, p);
      assert false;
    }
  }

  lemma DifferenceDescends(all: set<Pair>, m: set<Pair>, n: set<Pair>, p: Pair) returns (r: Pair)
    requires StrictlyStable(all, m) && n <= all && IsMatching(n)
    requires p in (m - n) + (n - m) && (p in m ==> BlockedBy(n, p))
    ensures r in (m - n) + (n - m) && r.dist < p.dist
  {
    var q := p;
    if p in m {
      assert BlockedBy(n, p);
      q :| q in n && Conflict(p, q) && q.dist <= p.dist;
    }
    assert q !in m;
    assert StrictlyBlockedBy(m, q);
    r :| r in m && Conflict(q, r) && r.dist < q.dist;
  }

  lemma {:induction false} Nearest(s: set<Pair>) returns (p: Pair)
    requires s != {}
    ensures p in s && forall q | q in s :: p.dist <= q.dist
  {
    p :| p in s;
    if s != {p} {
      var r := Nearest(s - {p});
      if r.dist < p.dist {
        p := r;
      }
    }
  }

  /** The position at which a walk comes to each track, and to each detection. */
  datatype Walk = Walk(track: int -> int, det: nat -> int)

  /** A walk comes to one thing at a time. */
  ghost predicate IsWalk(w: Walk) {
    && (forall t, u :: t != u ==> w.track(t) != w.track(u))
    && (forall d, e :: d != e ==> w.det(d) != w.det(e))
  }

  /** Tracks in the outer loop, detections in the inner one. */
  ghost function WalkOrder(w: Walk): Order {
    (p: Pair, q: Pair) =>
      w.track(p.track) < w.track(q.track) || (p.track == q.track && w.det(p.det) <= w.det(q.det))
  }

  /** What a stable sort by distance makes of the candidates as walked. */
  ghost predicate Walked(all: set<Pair>, c: seq<Pair>, w: Walk) {
    IsWalk(w) && Ordering(all, c) && RankedSorted(c, WalkOrder(w))
  }

  /** Any walk in which this track and this detection come first; no position is less than 0. */
  ghost function StartingAt(p: Pair): (w: Walk)
    ensures IsWalk(w)
    ensures forall t :: w.track(t) >= 0 && (w.track(t) == 0 ==> t == p.track)
    ensures forall d :: w.det(d) >= 0 && (w.det(d) == 0 ==> d == p.det)
    ensures w.track(p.track) == 0 && w.det(p.det) == 0
  {
    Walk(t => if t == p.track then 0 else if t >= 0 then 2 * t + 2 else -2 * t + 1,
         d => if d == p.det then 0 else d + 1)
  }

  lemma WalkThrough(all: set<Pair>, w: Walk) returns (c: seq<Pair>)
    requires IsWalk(w)
    ensures Walked(all, c, w)
  {
    c := Arrange(all, WalkOrder(w));
  }

  /** A candidate walked first is taken unless there is a strictly nearer one in its way. */
  lemma FirstIsTaken(all: set<Pair>, c: seq<Pair>, p: Pair)
    requires p in all && Walked(all, c, StartingAt(p))
    ensures p in Greedy(c) || StrictlyBlockedBy(Greedy(c), p)
  {
    assert p in Elements(c);
    var k :| 0 <= k < |c| && c[k] == p;
    if p !in Greedy(c) {
      var j := LostTo(c, k);
      assert RankedBefore(c[j], p, WalkOrder(StartingAt(p)));
      assert c[j] != p;
    }
  }

  /** So one that lost only to pairs exactly as near makes another walk differ. */
  lemma TieCanGoTheOtherWay(all: set<Pair>, m: set<Pair>, p: Pair) returns (w: Walk, c: seq<Pair>)
    requires p in all && p !in m && !StrictlyBlockedBy(m, p)
    ensures Walked(all, c, w) && Greedy(c) != m
  {
    w := StartingAt(p);
    c := WalkThrough(all, w);
    FirstIsTaken(all, c, p);
  }

  /** Every walk gives the same matching. */
  ghost predicate WalksAgree(all: set<Pair>) {
    forall v, w, c, d | Walked(all, c, v) && Walked(all, d, w) :: Greedy(c) == Greedy(d)
  }

  /**
    Whatever the order in which the nested loops walk tracks and detections, the scan returns the same
    pairs, exactly when there is a matching such that every candidate outside it loses to a strictly
    nearer one.
  */
  lemma WalksAgreeIffStrict(all: set<Pair>)
    ensures WalksAgree(all) <==> exists m :: StrictlyStable(all, m)
  {
    if m :| StrictlyStable(all, m) {
      forall c | Ordering(all, c) ensures Greedy(c) == m {
        GreedyIsStable(all, c);
        StrictlyStableIsUnique(all, m, Greedy(c));
      }
    }
    if WalksAgree(all) {
      var v := StartingAt(Pair(0.0, 0, 0));
      var c := WalkThrough(all, v);
      var m := Greedy(c);
      GreedyIsStable(all, c);
      if !StrictlyStable(all, m) {
        var p :| p in all && p !in m && !StrictlyBlockedBy(m, p);
        var w, d := TieCanGoTheOtherWay(all, m, p);
        assert false;
      }
    }
  }

  /** For a given outcome: all other orders have it, too, iff all it passed over lost to a strictly nearer one. */
  lemma OrderIndependentIffStrict(all: set<Pair>, c: seq<Pair>)
    requires Ordering(all, c)
    ensures (forall d | Ordering(all, d) :: Greedy(d) == Greedy(c)) <==> StrictlyStable(all, Greedy(c))
  {
    GreedyIsStable(all, c);
    var m := Greedy(c);
    if StrictlyStable(all, m) {
      forall d | Ordering(all, d) ensures Greedy(d) == m {
        GreedyIsStable(all, d);
        StrictlyStableIsUnique(all, m, Greedy(d));
      }
    } else {
      var p :| p in all && p !in m && !StrictlyBlockedBy(m, p);
      var w, d := TieCanGoTheOtherWay(all, m, p);
    }
  }

  /** It is not always so: of two equally near detections, a track gets the one that is walked first. */
  lemma TiesMatter() returns (all: set<Pair>, c: seq<Pair>, d: seq<Pair>, v: Walk, w: Walk)
    ensures Walked(all, c, v) && Walked(all, d, w) && Greedy(c) != Greedy(d)
  {
    var p, q := Pair(1.0, 1, 0), Pair(1.0, 1, 1);
    v, w := Walk(t => t, e => e), Walk(t => t, e => -e);
    all, c, d := {p, q}, [p, q], [q, p];
    TieOfTwo(p, q, v);
    TieOfTwo(q, p, w);
    assert {q, p} == all;
  }

  lemma TieOfTwo(p: Pair, q: Pair, w: Walk)
    requires p.dist == q.dist && p.track == q.track && p.det != q.det
    requires IsWalk(w) && w.det(p.det) < w.det(q.det)
    ensures Walked({p, q}, [p, q], w)
    ensures p in Greedy([p, q]) && q !in Greedy([p, q])
  {
    GreedyOfOne(p);
    assert [p, q][..1] == [p];
    assert p.track in TracksOf({p});
  }

  lemma GreedyOfOne(p: Pair)
    ensures Greedy([p]) == {p}
  {
    assert [p][..0] == [];
    assert Greedy([]) == {};
    assert TracksOf({}) == {} && DetsOf({}) == {};
  }

  /** In particular when no two candidates that share an endpoint are equally distant. */
  lemma DistinctDistancesDecide(all: set<Pair>, c: seq<Pair>, d: seq<Pair>)
    requires Ordering(all, c) && Ordering(all, d)
    requires forall p, q | p in all && q in all && p != q && Conflict(p, q) :: p.dist != q.dist
    ensures Greedy(c) == Greedy(d)
  {
    GreedyIsStable(all, c);
    var m := Greedy(c);
    forall p | p in all && p !in m ensures StrictlyBlockedBy(m, p) {
      assert BlockedBy(m, p);
      var q :| q in m && Conflict(p, q) && q.dist <= p.dist;
      assert q.dist < p.dist;
    }
    OrderIndependentIffStrict(all, c);
  }
}
