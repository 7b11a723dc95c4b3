/**
  The point-in-polygon test on convex polygons: which points it accepts, those on edges and corners included.

  A point on an edge counts as being on that side of it on which it would be if moved a little to the left
  and still less downwards. So the side is given by three numbers, of which the first that is not zero
  decides. They are combined with positive weights, and sums of positive ones are positive.
*/
module Convex {
  import opened Common
  import opened Zones

  /** To be compared with zero lexicographically. */
  datatype Lean = Lean(here: real, left: real, down: real)

  const ZERO := Lean(0.0, 0.0, 0.0)

  predicate Positive(v: Lean) {
    v.here > 0.0 || (v.here == 0.0 && (v.left > 0.0 || (v.left == 0.0 && v.down > 0.0)))
  }

  function Plus(v: Lean, w: Lean): Lean {
    Lean(v.here + w.here, v.left + w.left, v.down + w.down)
  }

  function Scale(c: real, v: Lean): Lean {
    Lean(c * v.here, c * v.left, c * v.down)
  }

  lemma ScaleSign(c: real, v: Lean)
    requires c > 0.0
    ensures Positive(Scale(c, v)) <==> Positive(v)
  {
    SameSign(c, v.here);
    SameSign(c, v.left);
    SameSign(c, v.down);
  }

  lemma SameSign(c: real, x: real)
    requires c > 0.0
    ensures (c * x > 0.0 <==> x > 0.0) && (c * x == 0.0 <==> x == 0.0)
  {
    ProductSign(c, x);
  }

  lemma ScaleNotNegative(c: real, v: Lean)
    requires c >= 0.0 && Positive(v)
    ensures Scale(c, v) == ZERO || Positive(Scale(c, v))
    ensures c > 0.0 ==> Positive(Scale(c, v))
  {
    if c > 0.0 {
      ScaleSign(c, v);
    }
  }

  /** A positive multiple that is a sum of multiples of positive ones, not all of them zero. */
  lemma Combine(c: real, v: Lean, a: real, x: Lean, b: real, y: Lean)
    requires c > 0.0 && a >= 0.0 && b > 0.0 && Positive(x) && Positive(y)
    requires Scale(c, v) == Plus(Scale(a, x), Scale(b, y))
    ensures Positive(v)
  {
    ScaleNotNegative(a, x);
    ScaleNotNegative(b, y);
    ScaleSign(c, v);
  }

  lemma CombineThree(c: real, v: Lean, a: real, x: Lean, b: real, y: Lean, d: real, z: Lean)
    requires c > 0.0 && a >= 0.0 && b >= 0.0 && d > 0.0 && Positive(x) && Positive(y) && Positive(z)
    requires Scale(c, v) == Plus(Plus(Scale(a, x), Scale(b, y)), Scale(d, z))
    ensures Positive(v)
  {
    ScaleNotNegative(a, x);
    ScaleNotNegative(b, y);
    ScaleNotNegative(d, z);
    ScaleSign(c, v);
  }

  // ---------- sides of edges, boundary included ----------

  function LeanOf(p: Point, a: Point, b: Point): Lean {
    Lean(Side(p, a, b), b.1 - a.1, a.0 - b.0)
  }

  /**
    `p` is to the left of the edge from `a` to `b`, or on its line and the edge goes up or, if level, to the
    left.
  */
  predicate OnLeft(p: Point, a: Point, b: Point) {
    Positive(LeanOf(p, a, b))
  }

  /** The two sides of an edge exclude each other and leave nothing out. */
  lemma OneSideOnly(p: Point, a: Point, b: Point)
    requires a != b
    ensures OnLeft(p, b, a) == !OnLeft(p, a, b)
  {
    SideAntisymmetric(p, a, b);
  }

  /** Off the line it is the strict half-plane. */
  lemma OffLine(p: Point, a: Point, b: Point)
    requires Side(p, a, b) != 0.0
    ensures OnLeft(p, a, b) <==> Side(p, a, b) > 0.0
  {
  }

  /** At an edge that `p` is level with, the answer toggles iff `p` is on the left and it goes up, or on neither. */
  lemma CrossesBySide(p: Point, a: Point, b: Point)
    ensures Crosses(p, a, b) <==> Straddles(a, b, p.1) && OnLeft(p, a, b) == Below(a, p.1)
  {
  }

  lemma AreaCyclic(a: Point, b: Point, c: Point)
    ensures Area2(b, c, a) == Area2(a, b, c) && Area2(c, a, b) == Area2(a, b, c)
  {
  }

  // ---------- how the sides of edges depend on each other ----------

  /** The side of any edge, from those of a triangle. */
  lemma FromTriangle(p: Point, a: Point, b: Point, c: Point, q: Point, r: Point)
    ensures Scale(Area2(a, b, c), LeanOf(p, q, r))
         == Plus(Plus(Scale(Side(a, q, r), LeanOf(p, b, c)), Scale(Side(b, q, r), LeanOf(p, c, a))),
                 Scale(Side(c, q, r), LeanOf(p, a, b)))
  {
    SideFromTriangle(p, a, b, c, q, r);
    LeftFromTriangle(a, b, c, q, r);
    DownFromTriangle(a, b, c, q, r);
  }

  lemma SideFromTriangle(p: Point, a: Point, b: Point, c: Point, q: Point, r: Point)
    ensures Area2(a, b, c) * Side(p, q, r)
         == Side(a, q, r) * Side(p, b, c) + Side(b, q, r) * Side(p, c, a) + Side(c, q, r) * Side(p, a, b)
  {
  }

  lemma LeftFromTriangle(a: Point, b: Point, c: Point, q: Point, r: Point)
    ensures Area2(a, b, c) * (r.1 - q.1)
         == Side(a, q, r) * (c.1 - b.1) + Side(b, q, r) * (a.1 - c.1) + Side(c, q, r) * (b.1 - a.1)
  {
  }

  lemma DownFromTriangle(a: Point, b: Point, c: Point, q: Point, r: Point)
    ensures Area2(a, b, c) * (q.0 - r.0)
         == Side(a, q, r) * (b.0 - c.0) + Side(b, q, r) * (c.0 - a.0) + Side(c, q, r) * (a.0 - b.0)
  {
  }

  /** The side of an edge that ends at `o`, from those of two others there. */
  lemma FromTwo(p: Point, o: Point, a: Point, b: Point, c: Point)
    ensures Scale(Area2(o, a, b), LeanOf(p, c, o))
         == Plus(Scale(Area2(o, b, c), LeanOf(p, o, a)), Scale(Area2(o, a, c), LeanOf(p, b, o)))
  {
    SideFromTwo(p, o, a, b, c);
    LeftFromTwo(o, a, b, c);
    DownFromTwo(o, a, b, c);
  }

  lemma SideFromTwo(p: Point, o: Point, a: Point, b: Point, c: Point)
    ensures Area2(o, a, b) * Side(p, c, o) == Area2(o, b, c) * Side(p, o, a) + Area2(o, a, c) * Side(p, b, o)
  {
  }

  lemma LeftFromTwo(o: Point, a: Point, b: Point, c: Point)
    ensures Area2(o, a, b) * (o.1 - c.1) == Area2(o, b, c) * (a.1 - o.1) + Area2(o, a, c) * (o.1 - b.1)
  {
  }

  lemma DownFromTwo(o: Point, a: Point, b: Point, c: Point)
    ensures Area2(o, a, b) * (c.0 - o.0) == Area2(o, b, c) * (o.0 - a.0) + Area2(o, a, c) * (b.0 - o.0)
  {
  }

  /** And of one that starts there. */
  lemma ToTwo(p: Point, o: Point, a: Point, b: Point, c: Point)
    ensures Scale(Area2(o, b, c), LeanOf(p, o, a))
         == Plus(Scale(Area2(o, a, c), LeanOf(p, o, b)), Scale(Area2(o, a, b), LeanOf(p, c, o)))
  {
    SideToTwo(p, o, a, b, c);
    LeftToTwo(o, a, b, c);
    DownToTwo(o, a, b, c);
  }

  lemma SideToTwo(p: Point, o: Point, a: Point, b: Point, c: Point)
    ensures Area2(o, b, c) * Side(p, o, a) == Area2(o, a, c) * Side(p, o, b) + Area2(o, a, b) * Side(p, c, o)
  {
  }

  lemma LeftToTwo(o: Point, a: Point, b: Point, c: Point)
    ensures Area2(o, b, c) * (a.1 - o.1) == Area2(o, a, c) * (b.1 - o.1) + Area2(o, a, b) * (o.1 - c.1)
  {
  }

  lemma DownToTwo(o: Point, a: Point, b: Point, c: Point)
    ensures Area2(o, b, c) * (o.0 - a.0) == Area2(o, a, c) * (o.0 - b.0) + Area2(o, a, b) * (c.0 - o.0)
  {
  }

  // ---------- triangles ----------

  predicate InTriangle(p: Point, a: Point, b: Point, c: Point) {
    OnLeft(p, a, b) && OnLeft(p, b, c) && OnLeft(p, c, a)
  }

  /** With just `a` below. */
  lemma OneBelow(p: Point, a: Point, b: Point, c: Point)
    requires Area2(a, b, c) > 0.0 && Below(a, p.1) && !Below(b, p.1) && !Below(c, p.1)
    ensures OnLeft(p, a, b) || OnLeft(p, c, a)
    ensures OnLeft(p, a, b) && OnLeft(p, c, a) ==> OnLeft(p, b, c)
  {
    var x, y, z := HeightsBalance(p, a, b, c);
    SidesAddUp(p, a, b, c);
    LevelArea(b, c, a);
    AreaCyclic(a, b, c);
  }

  lemma TwoBelow(p: Point, a: Point, b: Point, c: Point)
    requires Area2(a, b, c) > 0.0 && !Below(a, p.1) && Below(b, p.1) && Below(c, p.1)
    ensures OnLeft(p, a, b) || OnLeft(p, c, a)
    ensures OnLeft(p, a, b) && OnLeft(p, c, a) ==> OnLeft(p, b, c)
  {
    var x, y, z := HeightsBalance(p, a, b, c);
    SidesAddUp(p, a, b, c);
    LevelArea(b, c, a);
    AreaCyclic(a, b, c);
  }

  lemma AllBelow(p: Point, a: Point, b: Point, c: Point)
    requires Area2(a, b, c) > 0.0 && Below(a, p.1) && Below(b, p.1) && Below(c, p.1)
    ensures !InTriangle(p, a, b, c)
  {
    var x, y, z := HeightsBalance(p, a, b, c);
    SidesAddUp(p, a, b, c);
  }

  lemma NoneBelow(p: Point, a: Point, b: Point, c: Point)
    requires Area2(a, b, c) > 0.0 && !Below(a, p.1) && !Below(b, p.1) && !Below(c, p.1)
    ensures !InTriangle(p, a, b, c)
  {
    var x, y, z := HeightsBalance(p, a, b, c);
    SidesAddUp(p, a, b, c);
    LevelArea(a, b, c);
    LevelArea(b, c, a);
    LevelArea(c, a, b);
    AreaCyclic(a, b, c);
  }

  /** Over a level edge, the orientation depends on which way it goes and where the third vertex is. */
  lemma LevelArea(a: Point, b: Point, c: Point)
    ensures a.1 == b.1 ==> SignOfProduct(Area2(a, b, c), b.0 - a.0, c.1 - a.1)
  {
    ProductHasSign(b.0 - a.0, c.1 - a.1);
    if a.1 == b.1 {
      assert Area2(a, b, c) == (b.0 - a.0) * (c.1 - a.1);
    }
  }

  /** A counterclockwise triangle contains just the points on the left of all three edges. */
  lemma TriangleIsConvex(p: Point, a: Point, b: Point, c: Point)
    requires Area2(a, b, c) > 0.0
    ensures Ring(p, [a, b, c]) <==> InTriangle(p, a, b, c)
  {
    TriangleRing(p, a, b, c);
    CrossesBySide(p, a, b);
    CrossesBySide(p, b, c);
    CrossesBySide(p, c, a);
    AreaCyclic(a, b, c);
    if Below(a, p.1) == Below(b, p.1) == Below(c, p.1) {
      if Below(a, p.1) {
        AllBelow(p, a, b, c);
      } else {
        NoneBelow(p, a, b, c);
      }
    } else if Below(b, p.1) == Below(c, p.1) {
      LoneVertex(p, a, b, c);
    } else if Below(a, p.1) == Below(c, p.1) {
      LoneVertex(p, b, c, a);
    } else {
      LoneVertex(p, c, a, b);
    }
  }

  lemma LoneVertex(p: Point, a: Point, b: Point, c: Point)
    requires Area2(a, b, c) > 0.0 && Below(a, p.1) != Below(b, p.1) == Below(c, p.1)
    ensures OnLeft(p, a, b) || OnLeft(p, c, a)
    ensures OnLeft(p, a, b) && OnLeft(p, c, a) ==> OnLeft(p, b, c)
  {
    if Below(a, p.1) {
      OneBelow(p, a, b, c);
    } else {
      TwoBelow(p, a, b, c);
    }
  }

  // ---------- convex polygons ----------

  /** Every three vertices, in order, turn counterclockwise. */
  ghost predicate Counterclockwise(v: seq<Point>) {
    |v| >= 3 && forall i, j, k | 0 <= i < j < k < |v| :: TurnsLeft(v, i, j, k)
  }

  predicate TurnsLeft(v: seq<Point>, i: nat, j: nat, k: nat)
    requires i < j < k < |v|
  {
    Area2(v[i], v[j], v[k]) > 0.0
  }

  predicate LeftOfEdge(p: Point, v: seq<Point>, i: nat)
    requires i + 1 < |v|
  {
    OnLeft(p, v[i], v[i + 1])
  }

  /** On the left of the edges between the first k vertices, the one back to the start not included. */
  predicate LeftOfChain(p: Point, v: seq<Point>, k: nat)
    requires k <= |v|
  {
    forall i | 0 <= i < k - 1 :: LeftOfEdge(p, v, i)
  }

  /** From one vertex to the next, or from the last to the first. */
  ghost predicate IsEdge(v: seq<Point>, a: Point, b: Point) {
    v != [] &&
    ((a == v[|v| - 1] && b == v[0]) || exists i, j | 0 <= i && j == i + 1 < |v| :: v[i] == a && v[j] == b)
  }

  ghost predicate OnLeftOfAll(p: Point, v: seq<Point>) {
    forall a, b | IsEdge(v, a, b) :: OnLeft(p, a, b)
  }

  /** An edge with a triangle on its left has every point of the triangle on its left. */
  lemma WithinTriangle(p: Point, a: Point, b: Point, c: Point, q: Point, r: Point)
    requires Area2(a, b, c) > 0.0 && InTriangle(p, a, b, c)
    requires Side(a, q, r) >= 0.0 && Side(b, q, r) >= 0.0 && Side(c, q, r) > 0.0
    ensures OnLeft(p, q, r)
  {
    FromTriangle(p, a, b, c, q, r);
    CombineThree(Area2(a, b, c), LeanOf(p, q, r), Side(a, q, r), LeanOf(p, b, c), Side(b, q, r), LeanOf(p, c, a),
                 Side(c, q, r), LeanOf(p, a, b));
  }

  /** The last of k + 1 vertices, and the two next to it in the ring, are on the left of the edges before. */
  lemma VerticesOnLeft(v: seq<Point>, k: nat, i: nat)
    requires Counterclockwise(v) && 3 <= k < |v| && i < k - 1
    ensures Area2(v[0], v[k - 1], v[k]) > 0.0
    ensures Side(v[0], v[i], v[i + 1]) >= 0.0
    ensures Side(v[k - 1], v[i], v[i + 1]) >= 0.0
    ensures Side(v[k], v[i], v[i + 1]) > 0.0
  {
    var q, r := v[i], v[i + 1];
    if i > 0 {
      assert TurnsLeft(v, 0, i, i + 1);
      AreaCyclic(v[0], q, r);
    }
    if i + 1 < k - 1 {
      assert TurnsLeft(v, i, i + 1, k - 1);
    }
    assert TurnsLeft(v, i, i + 1, k) && TurnsLeft(v, 0, k - 1, k);
    EndOnEdge(q, r);
  }

  lemma EndOnEdge(a: Point, b: Point)
    ensures Side(a, a, b) == 0.0 && Side(b, a, b) == 0.0
  {
  }

  /** A point of the triangle that the last vertex adds is on the left of every edge before. */
  lemma TriangleWithinEdge(p: Point, v: seq<Point>, k: nat, i: nat)
    requires Counterclockwise(v) && 3 <= k < |v| && i < k - 1
    requires InTriangle(p, v[0], v[k - 1], v[k])
    ensures LeftOfEdge(p, v, i)
  {
    VerticesOnLeft(v, k, i);
    WithinTriangle(p, v[0], v[k - 1], v[k], v[i], v[i + 1]);
  }

  /** A point of the polygon before it is on the left of the two new edges. */
  lemma PolygonWithinEdges(p: Point, v: seq<Point>, k: nat)
    requires Counterclockwise(v) && 3 <= k < |v|
    requires LeftOfPrefix(p, v, k)
    ensures LeftOfEdge(p, v, k - 1) && OnLeft(p, v[k], v[0])
  {
    var o, a, e, b, c := v[0], v[1], v[k - 2], v[k - 1], v[k];
    assert TurnsLeft(v, 0, 1, k - 1) && TurnsLeft(v, 0, 1, k) && TurnsLeft(v, 0, k - 1, k);
    assert LeftOfEdge(p, v, 0) && LeftOfEdge(p, v, k - 2);
    FromTwo(p, o, a, b, c);
    Combine(Area2(o, a, b), LeanOf(p, c, o), Area2(o, b, c), LeanOf(p, o, a), Area2(o, a, c), LeanOf(p, b, o));
    assert TurnsLeft(v, 0, k - 2, k - 1) && TurnsLeft(v, k - 2, k - 1, k);
    AreaCyclic(o, e, b);
    AreaCyclic(e, b, c);
    AreaCyclic(o, b, c);
    ToTwo(p, b, c, o, e);
    Combine(Area2(b, o, e), LeanOf(p, b, c), Area2(b, c, e), LeanOf(p, b, o), Area2(b, c, o), LeanOf(p, e, b));
  }

  lemma LevelsApart(a: Point, b: Point, c: Point)
    requires Area2(a, b, c) > 0.0
    ensures a != c
  {
  }

  /** On the left of all edges of the polygon of the first k vertices. */
  predicate LeftOfPrefix(p: Point, v: seq<Point>, k: nat)
    requires 0 < k <= |v|
  {
    LeftOfChain(p, v, k) && OnLeft(p, v[k - 1], v[0])
  }

  lemma ConvexStep(p: Point, v: seq<Point>, k: nat)
    requires Counterclockwise(v) && 3 <= k < |v|
    ensures LeftOfPrefix(p, v, k + 1) == (InTriangle(p, v[0], v[k - 1], v[k]) != LeftOfPrefix(p, v, k))
  {
    assert TurnsLeft(v, 0, 1, k - 1);
    LevelsApart(v[0], v[1], v[k - 1]);
    OneSideOnly(p, v[0], v[k - 1]);
    if InTriangle(p, v[0], v[k - 1], v[k]) {
      forall i: nat | i < k ensures LeftOfEdge(p, v, i) {
        if i < k - 1 {
          TriangleWithinEdge(p, v, k, i);
        }
      }
    } else if LeftOfPrefix(p, v, k) {
      PolygonWithinEdges(p, v, k);
    } else if LeftOfChain(p, v, k + 1) {
      assert LeftOfEdge(p, v, k - 1);
    }
  }

  lemma ThreeVertices(p: Point, v: seq<Point>)
    requires Counterclockwise(v)
    ensures Ring(p, v[..3]) == LeftOfPrefix(p, v, 3)
  {
    assert TurnsLeft(v, 0, 1, 2);
    TriangleIsConvex(p, v[0], v[1], v[2]);
    assert v[..3] == [v[0], v[1], v[2]];
    assert LeftOfChain(p, v, 3) <==> LeftOfEdge(p, v, 0) && LeftOfEdge(p, v, 1);
  }

  lemma AnotherTriangle(p: Point, v: seq<Point>, k: nat, t: seq<Point>)
    requires Counterclockwise(v) && 3 <= k < |v| && t == [v[0], v[k - 1], v[k]]
    ensures LeftOfPrefix(p, v, k + 1) == (Ring(p, t) != LeftOfPrefix(p, v, k))
  {
    ConvexStep(p, v, k);
    assert TurnsLeft(v, 0, k - 1, k);
    TriangleIsConvex(p, v[0], v[k - 1], v[k]);
  }

  lemma {:induction false} ConvexPrefix(p: Point, v: seq<Point>, k: nat)
    requires Counterclockwise(v) && 3 <= k <= |v|
    ensures Ring(p, v[..k]) == LeftOfPrefix(p, v, k)
  {
    if k == 3 {
      ThreeVertices(p, v);
    } else {
      ConvexPrefix(p, v, k - 1);
      FanStep(p, v, k);
      AnotherTriangle(p, v, k - 1, [v[0], v[k - 2], v[k - 1]]);
    }
  }

  /**
    A convex polygon, counterclockwise, contains just the points that are on the left of all its edges:
    those strictly inside, those on an edge that goes up or, if level, to the left, and the corners
    between two such edges.
  */
  lemma ConvexContains(p: Point, v: seq<Point>)
    requires Counterclockwise(v)
    ensures Ring(p, v) <==> OnLeftOfAll(p, v)
  {
    ConvexPrefix(p, v, |v|);
    assert v[..|v|] == v;
    forall i: nat | i + 1 < |v| ensures IsEdge(v, v[i], v[i + 1]) {
    }
    assert IsEdge(v, v[|v| - 1], v[0]);
    if LeftOfPrefix(p, v, |v|) {
      forall a, b | IsEdge(v, a, b) ensures OnLeft(p, a, b) {
        PrefixEdge(p, v, a, b);
      }
    }
  }

  lemma PrefixEdge(p: Point, v: seq<Point>, a: Point, b: Point)
    requires v != [] && LeftOfPrefix(p, v, |v|) && IsEdge(v, a, b)
    ensures OnLeft(p, a, b)
  {
    if !(a == v[|v| - 1] && b == v[0]) {
      var i, j :| 0 <= i && j == i + 1 < |v| && v[i] == a && v[j] == b;
      assert LeftOfEdge(p, v, i);
    }
  }

  // ---------- either orientation ----------

  ghost predicate Clockwise(v: seq<Point>) {
    |v| >= 3 && forall i, j, k | 0 <= i < j < k < |v| :: TurnsRight(v, i, j, k)
  }

  predicate TurnsRight(v: seq<Point>, i: nat, j: nat, k: nat)
    requires i < j < k < |v|
  {
    Area2(v[i], v[j], v[k]) < 0.0
  }

  ghost predicate AllLeft(p: Point, v: seq<Point>) {
    forall a, b | IsEdge(v, a, b) :: Side(p, a, b) > 0.0
  }

  ghost predicate AllRight(p: Point, v: seq<Point>) {
    forall a, b | IsEdge(v, a, b) :: Side(p, a, b) < 0.0
  }

  ghost predicate OffAllEdges(p: Point, v: seq<Point>) {
    forall a, b | IsEdge(v, a, b) :: Side(p, a, b) != 0.0
  }

  /** A point to the right of all edges but the closing one is to the left of that. */
  lemma {:induction false} LeftAfterRight(p: Point, v: seq<Point>, k: nat)
    requires Counterclockwise(v) && 2 <= k < |v|
    requires forall i, j | 0 <= i && j == i + 1 < |v| :: Side(p, v[i], v[j]) < 0.0
    ensures Side(p, v[k], v[0]) > 0.0
  {
    assert TurnsLeft(v, 0, k - 1, k);
    SidesAddUp(p, v[0], v[k - 1], v[k]);
    SideAntisymmetric(p, v[0], v[k - 1]);
    if k > 2 {
      LeftAfterRight(p, v, k - 1);
    }
  }

  lemma NotRightOfAll(p: Point, v: seq<Point>)
    requires Counterclockwise(v)
    ensures !AllRight(p, v)
  {
    assert IsEdge(v, v[|v| - 1], v[0]);
    if AllRight(p, v) {
      forall i, j | 0 <= i && j == i + 1 < |v| ensures Side(p, v[i], v[j]) < 0.0 {
        assert IsEdge(v, v[i], v[j]);
      }
      LeftAfterRight(p, v, |v| - 1);
    }
  }

  lemma CounterclockwiseSides(p: Point, v: seq<Point>)
    requires Counterclockwise(v) && OffAllEdges(p, v)
    ensures Ring(p, v) <==> AllLeft(p, v)
  {
    ConvexContains(p, v);
    forall a, b | IsEdge(v, a, b) ensures OnLeft(p, a, b) <==> Side(p, a, b) > 0.0 {
      OffLine(p, a, b);
    }
  }

  lemma ReversedEdge(v: seq<Point>, a: Point, b: Point)
    requires IsEdge(v, a, b)
    ensures IsEdge(Reversed(v), b, a)
  {
    var w, n := Reversed(v), |v|;
    if !(a == v[n - 1] && b == v[0]) {
      var i, j :| 0 <= i && j == i + 1 < n && v[i] == a && v[j] == b;
      assert w[n - 1 - j] == b && w[n - 1 - i] == a && n - 1 - i == n - 1 - j + 1;
    }
  }

  lemma ReversedSides(p: Point, v: seq<Point>)
    ensures AllLeft(p, v) ==> AllRight(p, Reversed(v))
    ensures AllRight(p, v) ==> AllLeft(p, Reversed(v))
    ensures OffAllEdges(p, v) ==> OffAllEdges(p, Reversed(v))
  {
    assert Reversed(Reversed(v)) == v;
    forall a, b | IsEdge(Reversed(v), a, b) ensures IsEdge(v, b, a) && Side(p, a, b) == -Side(p, b, a) {
      ReversedEdge(Reversed(v), a, b);
      SideAntisymmetric(p, a, b);
    }
  }

  lemma ReversedOrientation(v: seq<Point>)
    requires Clockwise(v)
    ensures Counterclockwise(Reversed(v))
  {
    var w, n := Reversed(v), |v|;
    forall i, j, k | 0 <= i < j < k < n ensures TurnsLeft(w, i, j, k) {
      assert TurnsRight(v, n - 1 - k, n - 1 - j, n - 1 - i);
      AreaReversed(w[i], w[j], w[k]);
    }
  }

  lemma AreaReversed(a: Point, b: Point, c: Point)
    ensures Area2(c, b, a) == -Area2(a, b, c)
  {
  }

  /** Off the lines of its edges, a convex polygon contains just the points on one side of them all. */
  lemma ConvexIsOneSide(p: Point, v: seq<Point>)
    requires Counterclockwise(v) || Clockwise(v)
    requires OffAllEdges(p, v)
    ensures Ring(p, v) <==> AllLeft(p, v) || AllRight(p, v)
  {
    if Counterclockwise(v) {
      CounterclockwiseSides(p, v);
      NotRightOfAll(p, v);
    } else {
      var w := Reversed(v);
      ReversedOrientation(v);
      ReversalInvariant(p, v);
      ReversedSides(p, v);
      ReversedSides(p, w);
      assert Reversed(w) == v;
      CounterclockwiseSides(p, w);
      NotRightOfAll(p, w);
    }
  }

  // ---------- the boundary, in either orientation ----------

  /** On the left of the edges walked the other way. */
  ghost predicate OnRightOfAll(p: Point, v: seq<Point>) {
    forall a, b | IsEdge(v, a, b) :: OnLeft(p, b, a)
  }

  /** A clockwise polygon contains just the points on the left of its edges walked the other way. */
  lemma ClockwiseContains(p: Point, v: seq<Point>)
    requires Clockwise(v)
    ensures Ring(p, v) <==> OnRightOfAll(p, v)
  {
    var w := Reversed(v);
    ReversedOrientation(v);
    ReversalInvariant(p, v);
    ConvexContains(p, w);
    assert Reversed(w) == v;
    if OnLeftOfAll(p, w) {
      forall a, b | IsEdge(v, a, b) ensures OnLeft(p, b, a) {
        ReversedEdge(v, a, b);
      }
    }
    if OnRightOfAll(p, v) {
      forall a, b | IsEdge(w, a, b) ensures OnLeft(p, a, b) {
        ReversedEdge(w, a, b);
      }
    }
  }

  // ---------- vertices on edges ----------

  /** The vertex after vertex k. */
  function Following(v: seq<Point>, k: nat): Point
    requires k < |v|
  {
    if k + 1 < |v| then v[k + 1] else v[0]
  }

  /** With a vertex put on the edge after vertex i. */
  function WithVertex(v: seq<Point>, i: nat, t: real): seq<Point>
    requires i < |v|
  {
    v[..i + 1] + [Between(v[i], Following(v, i), t)] + v[i + 1..]
  }

  lemma WithVertexRing(p: Point, v: seq<Point>, i: nat, t: real)
    requires i < |v| && 0.0 <= t <= 1.0
    ensures Ring(p, WithVertex(v, i, t)) == Ring(p, v)
  {
    if i + 1 < |v| {
      InsertionInvariant(p, v, i, t);
    } else {
      ClosingInsertionInvariant(p, v, t);
      assert WithVertex(v, i, t) == v + [Between(v[|v| - 1], v[0], t)];
    }
  }

  lemma EdgeAfter(v: seq<Point>, k: nat)
    requires k < |v|
    ensures IsEdge(v, v[k], Following(v, k))
  {
  }

  lemma EdgeIsAfter(v: seq<Point>, a: Point, b: Point) returns (k: nat)
    requires IsEdge(v, a, b)
    ensures k < |v| && a == v[k] && b == Following(v, k)
  {
    if a == v[|v| - 1] && b == v[0] {
      k := |v| - 1;
    } else {
      var i, j :| 0 <= i && j == i + 1 < |v| && v[i] == a && v[j] == b;
      k := i;
    }
  }

  /** Each edge of the one is an edge of the other, except that one is cut in two. */
  lemma WithVertexEdge(v: seq<Point>, i: nat, t: real, a: Point, b: Point)
    requires i < |v| && IsEdge(WithVertex(v, i, t), a, b)
    ensures var m, c, d := Between(v[i], Following(v, i), t), v[i], Following(v, i);
            IsEdge(v, a, b) || (a == c && b == m) || (a == m && b == d)
  {
    var w := WithVertex(v, i, t);
    var k := EdgeIsAfter(w, a, b);
    if k < i {
      EdgeAfter(v, k);
    } else if k > i + 1 {
      EdgeAfter(v, k - 1);
    }
  }

  lemma EdgeOfWithVertex(v: seq<Point>, i: nat, t: real, a: Point, b: Point)
    requires i < |v| && IsEdge(v, a, b)
    ensures var c, d := v[i], Following(v, i);
            IsEdge(WithVertex(v, i, t), a, b) || (a == c && b == d)
    ensures IsEdge(WithVertex(v, i, t), v[i], Between(v[i], Following(v, i), t))
  {
    var w := WithVertex(v, i, t);
    EdgeAfter(w, i);
    var k := EdgeIsAfter(v, a, b);
    if k < i {
      EdgeAfter(w, k);
    } else if k > i {
      EdgeAfter(w, k + 1);
    }
  }

  /** A part of an edge has the same points on its left. */
  lemma PartOnLeft(p: Point, a: Point, b: Point, t: real)
    requires 0.0 < t < 1.0
    ensures var m := Between(a, b, t);
            OnLeft(p, a, m) == OnLeft(p, a, b) && OnLeft(p, m, b) == OnLeft(p, a, b)
  {
    SideOfPart(p, a, b, t);
    PartIsScaled(p, a, b, t);
    ScaleSign(t, LeanOf(p, a, b));
    ScaleSign(1.0 - t, LeanOf(p, a, b));
  }

  lemma PartIsScaled(p: Point, a: Point, b: Point, t: real)
    ensures var m := Between(a, b, t);
            LeanOf(p, a, m) == Scale(t, LeanOf(p, a, b)) && LeanOf(p, m, b) == Scale(1.0 - t, LeanOf(p, a, b))
  {
    SideOfPart(p, a, b, t);
  }

  lemma WithVertexLeft(p: Point, v: seq<Point>, i: nat, t: real)
    requires i < |v| && 0.0 < t < 1.0
    ensures OnLeftOfAll(p, WithVertex(v, i, t)) == OnLeftOfAll(p, v)
  {
    var c, d := v[i], Following(v, i);
    PartOnLeft(p, c, d, t);
    EdgeAfter(v, i);
    if OnLeftOfAll(p, v) {
      forall a, b | IsEdge(WithVertex(v, i, t), a, b) ensures OnLeft(p, a, b) {
        WithVertexEdge(v, i, t, a, b);
      }
    }
    if OnLeftOfAll(p, WithVertex(v, i, t)) {
      forall a, b | IsEdge(v, a, b) ensures OnLeft(p, a, b) {
        EdgeOfWithVertex(v, i, t, a, b);
      }
    }
  }

  lemma WithVertexRight(p: Point, v: seq<Point>, i: nat, t: real)
    requires i < |v| && 0.0 < t < 1.0
    ensures OnRightOfAll(p, WithVertex(v, i, t)) == OnRightOfAll(p, v)
  {
    var c, d := v[i], Following(v, i);
    BetweenReversed(c, d, t);
    PartOnLeft(p, d, c, 1.0 - t);
    EdgeAfter(v, i);
    if OnRightOfAll(p, v) {
      forall a, b | IsEdge(WithVertex(v, i, t), a, b) ensures OnLeft(p, b, a) {
        WithVertexEdge(v, i, t, a, b);
      }
    }
    if OnRightOfAll(p, WithVertex(v, i, t)) {
      forall a, b | IsEdge(v, a, b) ensures OnLeft(p, b, a) {
        EdgeOfWithVertex(v, i, t, a, b);
      }
    }
  }

  /** A vertex to put on the edge after vertex `at`, dividing it in the ratio t : 1 - t. */
  datatype Extra = Extra(at: nat, t: real)

  /** With vertices put on edges, one after the other; those that make no sense are left out. */
  function WithVertices(v: seq<Point>, extras: seq<Extra>): seq<Point> {
    if extras == [] then v
    else
      var w, e := WithVertices(v, extras[..|extras| - 1]), extras[|extras| - 1];
      if e.at < |w| && 0.0 < e.t < 1.0 then WithVertex(w, e.at, e.t) else w
  }

  lemma {:induction false} SameWithVertices(p: Point, v: seq<Point>, extras: seq<Extra>)
    ensures var w := WithVertices(v, extras);
            && Ring(p, w) == Ring(p, v)
            && OnLeftOfAll(p, w) == OnLeftOfAll(p, v)
            && OnRightOfAll(p, w) == OnRightOfAll(p, v)
  {
    if extras != [] {
      var w, e := WithVertices(v, extras[..|extras| - 1]), extras[|extras| - 1];
      SameWithVertices(p, v, extras[..|extras| - 1]);
      if e.at < |w| && 0.0 < e.t < 1.0 {
        WithVertexRing(p, w, e.at, e.t);
        WithVertexLeft(p, w, e.at, e.t);
        WithVertexRight(p, w, e.at, e.t);
      }
    }
  }

  /** So the rule holds, boundary included, for convex polygons of either orientation and with vertices on edges. */
  lemma FlatConvexContains(p: Point, v: seq<Point>, extras: seq<Extra>)
    ensures Counterclockwise(v) ==>
              (Ring(p, WithVertices(v, extras)) <==> OnLeftOfAll(p, WithVertices(v, extras)))
    ensures Clockwise(v) ==>
              (Ring(p, WithVertices(v, extras)) <==> OnRightOfAll(p, WithVertices(v, extras)))
  {
    SameWithVertices(p, v, extras);
    if Counterclockwise(v) {
      ConvexContains(p, v);
    }
    if Clockwise(v) {
      ClockwiseContains(p, v);
    }
  }
}
