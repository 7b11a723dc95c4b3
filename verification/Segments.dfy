/**
  How the answer of the point-in-polygon test changes from one point to another: by the parity of the edges
  between them. So it is the same for any two points with no edge between them, whatever the polygon.

  For two points, take the region to the right of the segment between them and between their levels. An edge
  with just one end in it leaves it through the segment or at the level of either point, where that point's
  ray runs; so around a closed ring these crossings come in pairs.
*/
module Segments {
  import opened Common
  import opened Zones

  // ---------- two segments ----------

  predicate Opposite(x: real, y: real) {
    (x > 0.0 && y < 0.0) || (x < 0.0 && y > 0.0)
  }

  /** The ends of each segment are on different sides of the line through the other. */
  predicate Crossing(p: Point, q: Point, a: Point, b: Point) {
    Opposite(Side(p, a, b), Side(q, a, b)) && Opposite(Side(a, p, q), Side(b, p, q))
  }

  predicate MeetAt(p: Point, q: Point, a: Point, b: Point, s: real, t: real) {
    0.0 <= s <= 1.0 && 0.0 <= t <= 1.0 && Between(p, q, s) == Between(a, b, t)
  }

  /** They have a point in common, their ends included. */
  ghost predicate Meet(p: Point, q: Point, a: Point, b: Point) {
    exists s, t :: MeetAt(p, q, a, b, s, t)
  }

  /** But do not cross there: one ends on the other, or they overlap. */
  ghost predicate Touch(p: Point, q: Point, a: Point, b: Point) {
    Meet(p, q, a, b) && !Crossing(p, q, a, b)
  }

  lemma MeetReversed(p: Point, q: Point, a: Point, b: Point)
    ensures Meet(p, q, b, a) ==> Meet(p, q, a, b)
    ensures Meet(q, p, a, b) ==> Meet(p, q, a, b)
  {
    if s, t :| MeetAt(p, q, b, a, s, t) {
      BetweenReversed(a, b, 1.0 - t);
      assert MeetAt(p, q, a, b, s, 1.0 - t);
    }
    if s, t :| MeetAt(q, p, a, b, s, t) {
      BetweenReversed(p, q, 1.0 - s);
      assert MeetAt(p, q, a, b, 1.0 - s, t);
    }
  }

  lemma CrossingReversed(p: Point, q: Point, a: Point, b: Point)
    ensures Crossing(p, q, b, a) == Crossing(p, q, a, b) == Crossing(q, p, a, b)
  {
    SideAntisymmetric(p, a, b);
    SideAntisymmetric(q, a, b);
    SideAntisymmetric(a, p, q);
    SideAntisymmetric(b, p, q);
  }

  // ---------- the sides of four points ----------

  lemma SidesDiffer(p: Point, q: Point, a: Point, b: Point)
    ensures Side(p, a, b) - Side(q, a, b) == Side(b, p, q) - Side(a, p, q)
  {
  }

  lemma SidesTurned(p: Point, q: Point, v: Point)
    ensures Side(p, v, q) == -Side(v, p, q) && Side(p, q, v) == Side(v, p, q)
    ensures Side(q, v, p) == Side(v, p, q) && Side(q, p, v) == -Side(v, p, q)
  {
  }

  /** The sides balance the heights about each of the two points. */
  lemma FourSides(p: Point, q: Point, a: Point, b: Point)
      returns (x: real, y: real, z: real, u: real, v: real, w: real)
    ensures x + y + z == 0.0 && u + v + w == 0.0
    ensures SignOfProduct(x, a.1 - p.1, -Side(b, p, q))
    ensures SignOfProduct(y, b.1 - p.1, Side(a, p, q))
    ensures SignOfProduct(z, q.1 - p.1, Side(p, a, b))
    ensures SignOfProduct(u, a.1 - q.1, Side(b, p, q))
    ensures SignOfProduct(v, b.1 - q.1, -Side(a, p, q))
    ensures SignOfProduct(w, p.1 - q.1, Side(q, a, b))
  {
    SidesTurned(p, q, a);
    SidesTurned(p, q, b);
    x, y, z := HeightsBalance(p, a, b, q);
    u, v, w := HeightsBalance(q, a, b, p);
  }

  // ---------- where they touch ----------

  lemma Quotient(x: real, d: real)
    requires d > 0.0 && 0.0 <= x <= d
    ensures 0.0 <= x / d <= 1.0
  {
  }

  lemma TimesQuotient(d: real, n: real, x: real)
    requires d != 0.0
    ensures d * ((n / d) * x) == n * x
  {
    var s := n / d;
    assert d * s == n;
    assert d * (s * x) == (d * s) * x;
  }

  lemma Cancel(d: real, x: real, y: real)
    requires d != 0.0 && d * x == d * y
    ensures x == y
  {
    assert d * (x - y) == 0.0;
  }

  /** A point of the line through two others, by its height. */
  lemma OnLine(v: Point, p: Point, q: Point) returns (s: real)
    requires p.1 < q.1 && p.1 <= v.1 <= q.1 && Side(v, p, q) == 0.0
    ensures 0.0 <= s <= 1.0 && v == Between(p, q, s)
  {
    var d, n := q.1 - p.1, v.1 - p.1;
    s := n / d;
    Quotient(n, d);
    OnLineAt(v, p, q, s);
  }

  lemma OnLineAt(v: Point, p: Point, q: Point, s: real)
    requires q.1 - p.1 != 0.0 && s == (v.1 - p.1) / (q.1 - p.1) && Side(v, p, q) == 0.0
    ensures v == Between(p, q, s)
  {
    var d, x := q.1 - p.1, q.0 - p.0;
    assert s * d == v.1 - p.1;
    assert d * (s * x) == (s * d) * x;
    Cancel(d, s * x, v.0 - p.0);
    SamePoint(v, Between(p, q, s));
  }

  lemma AtEnds(a: Point, b: Point)
    ensures Between(a, b, 0.0) == a && Between(a, b, 1.0) == b
  {
  }

  /** An end of the edge on the segment. */
  lemma EndTouches(p: Point, q: Point, a: Point, b: Point)
    requires p.1 < q.1 && !Touch(p, q, a, b)
    ensures p.1 <= a.1 <= q.1 ==> Side(a, p, q) != 0.0
    ensures p.1 <= b.1 <= q.1 ==> Side(b, p, q) != 0.0
  {
    AtEnds(a, b);
    if p.1 <= a.1 <= q.1 && Side(a, p, q) == 0.0 {
      var s := OnLine(a, p, q);
      assert MeetAt(p, q, a, b, s, 0.0);
    }
    if p.1 <= b.1 <= q.1 && Side(b, p, q) == 0.0 {
      var s := OnLine(b, p, q);
      assert MeetAt(p, q, a, b, s, 1.0);
    }
  }

  /** An end of the segment on the edge. */
  lemma PointTouches(p: Point, q: Point, a: Point, b: Point)
    requires a.1 < b.1 && !Touch(p, q, a, b)
    ensures a.1 <= p.1 <= b.1 ==> Side(p, a, b) != 0.0
    ensures a.1 <= q.1 <= b.1 ==> Side(q, a, b) != 0.0
  {
    AtEnds(p, q);
    if a.1 <= p.1 <= b.1 && Side(p, a, b) == 0.0 {
      var t := OnLine(p, a, b);
      assert MeetAt(p, q, a, b, 0.0, t);
    }
    if a.1 <= q.1 <= b.1 && Side(q, a, b) == 0.0 {
      var t := OnLine(q, a, b);
      assert MeetAt(p, q, a, b, 1.0, t);
    }
  }

  /** Segments whose ends are on different sides, or on the line, meet. */
  lemma SidesMeet(p: Point, q: Point, a: Point, b: Point)
    requires Side(p, a, b) > 0.0 > Side(q, a, b) && Side(a, p, q) <= 0.0 <= Side(b, p, q)
    ensures Meet(p, q, a, b)
  {
    var m, n := Side(p, a, b), -Side(a, p, q);
    var d := m - Side(q, a, b);
    SidesDiffer(p, q, a, b);
    Quotient(m, d);
    Quotient(n, d);
    CommonPoint(p, q, a, b);
    SamePlace(d, m, n, m / d, n / d, p.0, q.0, a.0, b.0);
    SamePlace(d, m, n, m / d, n / d, p.1, q.1, a.1, b.1);
    BetweenBoth(p, q, a, b, m / d, n / d);
    assert MeetAt(p, q, a, b, m / d, n / d);
  }

  lemma BetweenBoth(p: Point, q: Point, a: Point, b: Point, s: real, t: real)
    requires p.0 + s * (q.0 - p.0) == a.0 + t * (b.0 - a.0) && p.1 + s * (q.1 - p.1) == a.1 + t * (b.1 - a.1)
    ensures Between(p, q, s) == Between(a, b, t)
  {
    SamePoint(Between(p, q, s), Between(a, b, t));
  }

  lemma SamePoint(u: Point, v: Point)
    requires u.0 == v.0 && u.1 == v.1
    ensures u == v
  {
  }

  lemma SamePlace(d: real, m: real, n: real, s: real, t: real, p: real, q: real, a: real, b: real)
    requires d != 0.0 && s == m / d && t == n / d && d * p + m * (q - p) == d * a + n * (b - a)
    ensures p + s * (q - p) == a + t * (b - a)
  {
    TimesQuotient(d, m, q - p);
    TimesQuotient(d, n, b - a);
    var x, y := s * (q - p), t * (b - a);
    Cancel(d, p + x, a + y);
  }

  lemma CommonPoint(p: Point, q: Point, a: Point, b: Point)
    ensures var m, n := Side(p, a, b), -Side(a, p, q);
            var d := m - Side(q, a, b);
            && d * p.0 + m * (q.0 - p.0) == d * a.0 + n * (b.0 - a.0)
            && d * p.1 + m * (q.1 - p.1) == d * a.1 + n * (b.1 - a.1)
  {
  }

  // ---------- one edge ----------

  /** In the region: between the levels of the two points, p the lower, and to the right of the segment. */
  predicate InRegion(p: Point, q: Point, v: Point) {
    !Below(v, p.1) && Below(v, q.1) && Side(v, p, q) < 0.0
  }

  /** Where the edge leaves the region: at the two rays and at the segment. */
  predicate Leaves(p: Point, q: Point, a: Point, b: Point) {
    (Crosses(p, a, b) != Crosses(q, a, b)) != Crossing(p, q, a, b)
  }

  lemma BothLow(p: Point, q: Point, a: Point, b: Point)
    requires p.1 <= q.1 && Below(a, p.1) && Below(b, p.1)
    ensures !Crossing(p, q, a, b)
  {
    var x, y, z, u, v, w := FourSides(p, q, a, b);
    SidesDiffer(p, q, a, b);
  }

  lemma BothHigh(p: Point, q: Point, a: Point, b: Point)
    requires p.1 <= q.1 && !Below(a, q.1) && !Below(b, q.1)
    ensures !Crossing(p, q, a, b)
  {
    var x, y, z, u, v, w := FourSides(p, q, a, b);
    SidesDiffer(p, q, a, b);
  }

  lemma BothBetween(p: Point, q: Point, a: Point, b: Point)
    requires p.1 < q.1 && Side(a, p, q) != 0.0 && Side(b, p, q) != 0.0 && !Touch(p, q, a, b)
    requires p.1 <= a.1 < q.1 && p.1 <= b.1 < q.1
    ensures Opposite(Side(a, p, q), Side(b, p, q)) <==> Crossing(p, q, a, b)
  {
    if a.1 == p.1 == b.1 {
      LevelTouch(p, q, a, b);
    } else {
      var x, y, z, u, v, w := FourSides(p, q, a, b);
      SidesDiffer(p, q, a, b);
    }
  }

  /** A level edge on whose line p is, and that has its ends on different sides of the segment, has p on it. */
  lemma LevelTouch(p: Point, q: Point, a: Point, b: Point)
    requires a.1 == p.1 == b.1 && p.1 < q.1 && !Touch(p, q, a, b)
    ensures !Opposite(Side(a, p, q), Side(b, p, q))
  {
    LevelEdgeSide(p, a, b);
    assert Side(a, p, q) == -((q.1 - p.1) * (a.0 - p.0));
    assert Side(b, p, q) == -((q.1 - p.1) * (b.0 - p.0));
    ProductHasSign(q.1 - p.1, a.0 - p.0);
    ProductHasSign(q.1 - p.1, b.0 - p.0);
    if a.0 < p.0 < b.0 {
      LevelMeet(p, q, a, b);
    } else if b.0 < p.0 < a.0 {
      LevelMeet(p, q, b, a);
      MeetReversed(p, q, a, b);
    }
  }

  lemma LevelMeet(p: Point, q: Point, a: Point, b: Point)
    requires a.1 == p.1 == b.1 && a.0 < p.0 < b.0
    ensures Meet(p, q, a, b)
  {
    var d, n := b.0 - a.0, p.0 - a.0;
    Quotient(n, d);
    TimesQuotient(d, n, d);
    Cancel(d, (n / d) * d, n);
    AtEnds(p, q);
    SamePoint(p, Between(a, b, n / d));
    assert MeetAt(p, q, a, b, 0.0, n / d);
  }

  lemma FromBelow(p: Point, q: Point, a: Point, b: Point)
    requires a.1 < p.1 <= b.1 < q.1 && Side(p, a, b) != 0.0 && Side(b, p, q) != 0.0
    ensures (Side(b, p, q) < 0.0) == ((Side(p, a, b) > 0.0) != Crossing(p, q, a, b))
  {
    var x, y, z, u, v, w := FourSides(p, q, a, b);
    SidesDiffer(p, q, a, b);
  }

  lemma ToAbove(p: Point, q: Point, a: Point, b: Point)
    requires p.1 <= a.1 < q.1 <= b.1 && Side(q, a, b) != 0.0 && Side(a, p, q) != 0.0
    ensures (Side(a, p, q) < 0.0) == ((Side(q, a, b) > 0.0) != Crossing(p, q, a, b))
  {
    var x, y, z, u, v, w := FourSides(p, q, a, b);
    SidesDiffer(p, q, a, b);
  }

  lemma AllTheWay(p: Point, q: Point, a: Point, b: Point)
    requires a.1 < p.1 <= q.1 <= b.1 && Side(p, a, b) != 0.0 && Side(q, a, b) != 0.0
    requires !Touch(p, q, a, b)
    ensures Opposite(Side(p, a, b), Side(q, a, b)) <==> Crossing(p, q, a, b)
  {
    var x, y, z, u, v, w := FourSides(p, q, a, b);
    SidesDiffer(p, q, a, b);
    SidesDiffer(q, p, a, b);
    if Side(p, a, b) > 0.0 > Side(q, a, b) {
      SidesMeet(p, q, a, b);
    }
    if Side(q, a, b) > 0.0 > Side(p, a, b) {
      SideAntisymmetric(a, p, q);
      SideAntisymmetric(b, p, q);
      SidesMeet(q, p, a, b);
      MeetReversed(p, q, a, b);
    }
  }

  /** An edge that goes up, or is level. */
  lemma EdgeGoingUp(p: Point, q: Point, a: Point, b: Point)
    requires p.1 <= q.1 && a.1 <= b.1 && !Touch(p, q, a, b)
    ensures (InRegion(p, q, a) != InRegion(p, q, b)) == Leaves(p, q, a, b)
  {
    if Below(b, p.1) {
      BothLow(p, q, a, b);
    } else if !Below(a, q.1) {
      BothHigh(p, q, a, b);
    } else {
      if p.1 < q.1 {
        EndTouches(p, q, a, b);
      }
      if a.1 < b.1 {
        PointTouches(p, q, a, b);
      }
      if Below(a, p.1) {
        if Below(b, q.1) {
          FromBelow(p, q, a, b);
        } else {
          AllTheWay(p, q, a, b);
        }
      } else if Below(b, q.1) {
        BothBetween(p, q, a, b);
      } else {
        ToAbove(p, q, a, b);
      }
    }
  }

  lemma EdgeLeaves(p: Point, q: Point, a: Point, b: Point)
    requires p.1 <= q.1 && !Touch(p, q, a, b)
    ensures (InRegion(p, q, a) != InRegion(p, q, b)) == Leaves(p, q, a, b)
  {
    if a.1 <= b.1 {
      EdgeGoingUp(p, q, a, b);
    } else {
      MeetReversed(p, q, a, b);
      CrossingReversed(p, q, a, b);
      EdgeGoingUp(p, q, b, a);
      CrossesSymmetric(p, a, b);
      CrossesSymmetric(q, a, b);
    }
  }

  // ---------- rings ----------

  /** How many edges of the path cross the segment. */
  function CrossingCount(p: Point, q: Point, path: seq<Point>): nat {
    if |path| < 2 then 0
    else
      var before := CrossingCount(p, q, path[..|path| - 1]);
      if Crossing(p, q, path[|path| - 2], path[|path| - 1]) then before + 1 else before
  }

  ghost predicate NoneTouches(p: Point, q: Point, path: seq<Point>) {
    forall i, j | 0 <= i && j == i + 1 < |path| :: !Touch(p, q, path[i], path[j])
  }

  /** The walks of the two points differ, as against the ends of the path and the crossings. */
  predicate Balanced(p: Point, q: Point, path: seq<Point>)
    requires path != []
  {
    (Walk(p, path) != Walk(q, path))
    == ((InRegion(p, q, path[0]) != InRegion(p, q, path[|path| - 1])) != (CrossingCount(p, q, path) % 2 == 1))
  }

  lemma WalkMore(p: Point, front: seq<Point>, b: Point)
    requires front != []
    ensures Walk(p, front + [b]) == (Walk(p, front) != Crosses(p, front[|front| - 1], b))
  {
    assert (front + [b])[..|front|] == front;
  }

  lemma CountMore(p: Point, q: Point, front: seq<Point>, b: Point)
    requires front != []
    ensures CrossingCount(p, q, front + [b])
         == CrossingCount(p, q, front) + if Crossing(p, q, front[|front| - 1], b) then 1 else 0
  {
    assert (front + [b])[..|front|] == front;
  }

  lemma OneMoreIsOdd(n: nat)
    ensures ((n + 1) % 2 == 1) == (n % 2 != 1)
  {
  }

  lemma OneEdgeMore(p: Point, q: Point, front: seq<Point>, a: Point, b: Point)
    requires front != [] && a == front[|front| - 1] && Balanced(p, q, front)
    requires (InRegion(p, q, a) != InRegion(p, q, b)) == Leaves(p, q, a, b)
    ensures Balanced(p, q, front + [b])
  {
    WalkMore(p, front, b);
    WalkMore(q, front, b);
    CountMore(p, q, front, b);
    OneMoreIsOdd(CrossingCount(p, q, front));
  }

  lemma {:induction false} WalksDiffer(p: Point, q: Point, path: seq<Point>)
    requires path != [] && p.1 <= q.1 && NoneTouches(p, q, path)
    ensures Balanced(p, q, path)
  {
    if |path| >= 2 {
      var front, b := path[..|path| - 1], path[|path| - 1];
      assert forall i | 0 <= i < |front| :: front[i] == path[i];
      WalksDiffer(p, q, front);
      EdgeLeaves(p, q, path[|path| - 2], b);
      OneEdgeMore(p, q, front, path[|path| - 2], b);
      assert path == front + [b];
    }
  }

  lemma {:induction false} CountReversed(p: Point, q: Point, path: seq<Point>)
    ensures CrossingCount(p, q, path) == CrossingCount(q, p, path)
  {
    if |path| >= 2 {
      CountReversed(p, q, path[..|path| - 1]);
      CrossingReversed(p, q, path[|path| - 2], path[|path| - 1]);
    }
  }

  lemma RingsDiffer(p: Point, q: Point, polygon: seq<Point>)
    requires polygon != [] && p.1 <= q.1 && NoneTouches(p, q, polygon + [polygon[0]])
    ensures Ring(p, polygon) != Ring(q, polygon) <==> CrossingCount(p, q, polygon + [polygon[0]]) % 2 == 1
  {
    WalksDiffer(p, q, polygon + [polygon[0]]);
  }

  /**
    For any polygon, crossing itself or not, and any two points such that the segment between them touches no
    edge without crossing it: just one of the points is inside iff an odd number of edges cross the segment.
  */
  lemma DifferIffOddCrossings(p: Point, q: Point, polygon: seq<Point>)
    requires polygon != [] && NoneTouches(p, q, polygon + [polygon[0]])
    ensures Ring(p, polygon) != Ring(q, polygon) <==> CrossingCount(p, q, polygon + [polygon[0]]) % 2 == 1
  {
    var closed := polygon + [polygon[0]];
    if p.1 <= q.1 {
      RingsDiffer(p, q, polygon);
    } else {
      forall i, j | 0 <= i && j == i + 1 < |closed| ensures !Touch(q, p, closed[i], closed[j]) {
        MeetReversed(p, q, closed[i], closed[j]);
        CrossingReversed(p, q, closed[i], closed[j]);
      }
      RingsDiffer(q, p, polygon);
      CountReversed(p, q, closed);
    }
  }

  ghost predicate NoneMeets(p: Point, q: Point, path: seq<Point>) {
    forall i, j | 0 <= i && j == i + 1 < |path| :: !Meet(p, q, path[i], path[j])
  }

  lemma CrossingMeets(p: Point, q: Point, a: Point, b: Point)
    requires Crossing(p, q, a, b)
    ensures Meet(p, q, a, b)
  {
    SidesDiffer(p, q, a, b);
    if Side(p, a, b) > 0.0 {
      SidesMeet(p, q, a, b);
    } else {
      SideAntisymmetric(a, p, q);
      SideAntisymmetric(b, p, q);
      SidesMeet(q, p, a, b);
      MeetReversed(p, q, a, b);
    }
  }

  lemma {:induction false} NothingCrosses(p: Point, q: Point, path: seq<Point>)
    requires NoneMeets(p, q, path)
    ensures CrossingCount(p, q, path) == 0
  {
    if |path| >= 2 {
      var front, a, b := path[..|path| - 1], path[|path| - 2], path[|path| - 1];
      assert forall i | 0 <= i < |front| :: front[i] == path[i];
      NothingCrosses(p, q, front);
      if Crossing(p, q, a, b) {
        CrossingMeets(p, q, a, b);
      }
    }
  }

  /** The answer changes only at the boundary: it is the same for two points with no edge between them. */
  lemma ConstantOffBoundary(p: Point, q: Point, polygon: seq<Point>)
    requires polygon != [] && NoneMeets(p, q, polygon + [polygon[0]])
    ensures Ring(p, polygon) == Ring(q, polygon)
  {
    NothingCrosses(p, q, polygon + [polygon[0]]);
    DifferIffOddCrossings(p, q, polygon);
  }
}
