/**
  The point-in-polygon test, over the reals.

  `PointInPolygon` is the loop; it is proved equal to `Ring`, the parity of the edges of the closed
  ring that the division-free predicate `Crosses` picks out. The rest is about `Ring`: how it behaves
  when a ring is turned, reversed, refined or cut, and that it agrees with half-plane tests.
*/
module Zones {
  import opened Common

  function Min(a: real, b: real): real {
    if a <= b then a else b
  }

  function Max(a: real, b: real): real {
    if a <= b then b else a
  }

  /** The condition under which the loop toggles its answer at the edge from `a` to `b`. */
  predicate Toggles(p: Point, a: Point, b: Point) {
    && p.1 > Min(a.1, b.1) && p.1 <= Max(a.1, b.1) && p.0 <= Max(a.0, b.0) && a.1 != b.1
    && (a.0 == b.0 || p.0 <= (p.1 - a.1) * (b.0 - a.0) / (b.1 - a.1) + a.0)
  }

  /** Positive when `p` is to the left of the line from `a` to `b`, zero on it. */
  function Side(p: Point, a: Point, b: Point): real {
    (b.0 - a.0) * (p.1 - a.1) - (b.1 - a.1) * (p.0 - a.0)
  }

  predicate Below(v: Point, y: real) {
    v.1 < y
  }

  /** Exactly one end of the edge is below `p`, and `p` is not to the right of the edge. */
  predicate Crosses(p: Point, a: Point, b: Point) {
    if Below(a, p.1) then !Below(b, p.1) && Side(p, a, b) >= 0.0
    else Below(b, p.1) && Side(p, a, b) <= 0.0
  }

  /** The answer after walking the edges between consecutive points of `path`. */
  function Walk(p: Point, path: seq<Point>): bool {
    if |path| < 2 then false
    else Walk(p, path[..|path| - 1]) != Crosses(p, path[|path| - 2], path[|path| - 1])
  }

  function Ring(p: Point, polygon: seq<Point>): bool {
    polygon != [] && Walk(p, polygon + [polygon[0]])
  }

  lemma WrapsAround(i: nat, n: nat)
    requires 0 < i <= n
    ensures i % n == if i < n then i else 0
  {
  }

  method PointInPolygon(point: Point, polygon: seq<Point>) returns (inside: bool)
    ensures inside == Ring(point, polygon)
  {
    inside := false;
    var n := |polygon|;
    if n < 3 {
      SmallRingsContainNothing(point, polygon);
      return false;
    }
    ghost var closed := polygon + [polygon[0]];
    var a := polygon[0];
    for i := 1 to n + 1
      invariant a == closed[i - 1]
      invariant inside == Walk(point, closed[..i])
    {
      var b := polygon[i % n];
      WrapsAround(i, n);
      assert b == closed[i];
      WalkStep(point, closed, i);
      if Toggles(point, a, b) {
        inside := !inside;
      }
      a := b;
    }
    assert closed[..n + 1] == closed;
  }

  // ---------- one edge ----------

  lemma QuotientBound(x: real, n: real, d: real, c: real)
    requires d != 0.0
    ensures d > 0.0 ==> (x <= n / d + c <==> (x - c) * d <= n)
    ensures d < 0.0 ==> (x <= n / d + c <==> (x - c) * d >= n)
  {
    var q := n / d;
    assert q * d == n;
    assert (x - c) * d - n == (x - c - q) * d;
  }

  lemma ProductSign(a: real, b: real)
    ensures a > 0.0 && b > 0.0 ==> a * b > 0.0
    ensures a >= 0.0 && b >= 0.0 ==> a * b >= 0.0
    ensures a < 0.0 && b > 0.0 ==> a * b < 0.0
    ensures a <= 0.0 && b >= 0.0 ==> a * b <= 0.0
    ensures a > 0.0 && b < 0.0 ==> a * b < 0.0
    ensures a >= 0.0 && b <= 0.0 ==> a * b <= 0.0
    ensures a < 0.0 && b < 0.0 ==> a * b > 0.0
    ensures a <= 0.0 && b <= 0.0 ==> a * b >= 0.0
  {
  }

  lemma SideByEnds(p: Point, a: Point, b: Point)
    ensures Side(p, a, b) == -((b.1 - p.1) * (p.0 - a.0) + (p.1 - a.1) * (p.0 - b.0))
  {
  }

  /** A point not to the right of a straddling edge is not to the right of both its ends. */
  lemma LeftOfAnEnd(p: Point, a: Point, b: Point)
    requires Below(a, p.1) && !Below(b, p.1) && Side(p, a, b) >= 0.0
    ensures p.0 <= Max(a.0, b.0)
  {
    SideByEnds(p, a, b);
    ProductSign(b.1 - p.1, p.0 - a.0);
    ProductSign(p.1 - a.1, p.0 - b.0);
  }

  lemma SideAntisymmetric(p: Point, a: Point, b: Point)
    ensures Side(p, b, a) == -Side(p, a, b)
  {
  }

  lemma CrossesSymmetric(p: Point, a: Point, b: Point)
    ensures Crosses(p, a, b) == Crosses(p, b, a)
  {
    SideAntisymmetric(p, a, b);
  }

  /** The test with its guards and its division is the division-free one. */
  lemma TogglesIffCrosses(p: Point, a: Point, b: Point)
    ensures Toggles(p, a, b) == Crosses(p, a, b)
  {
    if Below(a, p.1) != Below(b, p.1) {
      QuotientBound(p.0, (p.1 - a.1) * (b.0 - a.0), b.1 - a.1, a.0);
      SideAntisymmetric(p, a, b);
      if Crosses(p, a, b) {
        if Below(a, p.1) {
          LeftOfAnEnd(p, a, b);
        } else {
          LeftOfAnEnd(p, b, a);
        }
      }
    }
  }

  // ---------- walks and rings ----------

  lemma WalkStep(p: Point, path: seq<Point>, i: nat)
    requires 1 <= i < |path|
    ensures Walk(p, path[..i + 1]) == (Walk(p, path[..i]) != Toggles(p, path[i - 1], path[i]))
    ensures Toggles(p, path[i - 1], path[i]) == Crosses(p, path[i - 1], path[i])
  {
    assert path[..i + 1][..i] == path[..i];
    TogglesIffCrosses(p, path[i - 1], path[i]);
  }

  lemma {:induction false} WalkSplit(p: Point, s: seq<Point>, v: Point, t: seq<Point>)
    ensures Walk(p, s + [v] + t) == (Walk(p, s + [v]) != Walk(p, [v] + t))
  {
    if t == [] {
      assert s + [v] + t == s + [v];
    } else {
      var k := |t| - 1;
      WalkSplit(p, s, v, t[..k]);
      var path, tail := s + [v] + t, [v] + t;
      assert path[..|path| - 1] == s + [v] + t[..k];
      assert tail[..|tail| - 1] == [v] + t[..k];
    }
  }

  function Reversed<T>(s: seq<T>): (r: seq<T>)
    ensures |r| == |s| && forall i | 0 <= i < |s| :: r[i] == s[|s| - 1 - i]
  {
    seq(|s|, i requires 0 <= i < |s| => s[|s| - 1 - i])
  }

  lemma {:induction false} WalkReversed(p: Point, path: seq<Point>)
    ensures Walk(p, Reversed(path)) == Walk(p, path)
  {
    if |path| >= 2 {
      var k := |path| - 1;
      var v, w := path[k - 1], path[k];
      WalkReversed(p, path[..k]);
      var r := Reversed(path[..k]);
      assert r[0] == v;
      assert Reversed(path) == [w] + [v] + r[1..];
      assert r == [v] + r[1..];
      WalkSplit(p, [w], v, r[1..]);
      assert [w] + [v] == [w, v];
      WalkOfTwo(p, w, v);
      CrossesSymmetric(p, v, w);
    }
  }

  lemma WalkOfTwo(p: Point, a: Point, b: Point)
    ensures Walk(p, [a, b]) == Crosses(p, a, b)
  {
    assert [a, b][..1] == [a];
  }

  lemma WalkOfThree(p: Point, a: Point, b: Point, c: Point)
    ensures Walk(p, [a, b, c]) == (Crosses(p, a, b) != Crosses(p, b, c))
  {
    assert [a, b, c][..2] == [a, b];
    WalkOfTwo(p, a, b);
  }

  lemma TriangleRing(p: Point, a: Point, b: Point, c: Point)
    ensures Ring(p, [a, b, c]) == ((Crosses(p, a, b) != Crosses(p, b, c)) != Crosses(p, c, a))
  {
    var closed := [a, b, c] + [a];
    assert closed[..3] == [a, b, c];
    WalkOfThree(p, a, b, c);
  }

  /** The guard on fewer than three points changes nothing: such rings contain no point. */
  lemma SmallRingsContainNothing(p: Point, polygon: seq<Point>)
    requires |polygon| < 3
    ensures !Ring(p, polygon)
  {
    if |polygon| == 1 {
      WalkOfTwo(p, polygon[0], polygon[0]);
      assert polygon + [polygon[0]] == [polygon[0], polygon[0]];
    } else if |polygon| == 2 {
      var a, b := polygon[0], polygon[1];
      assert polygon + [a] == [a, b, a];
      WalkOfThree(p, a, b, a);
      CrossesSymmetric(p, a, b);
    }
  }

  /** Starting the ring at another vertex does not change the answer. */
  lemma RotationInvariant(p: Point, polygon: seq<Point>, k: nat)
    requires k < |polygon|
    ensures Ring(p, polygon[k..] + polygon[..k]) == Ring(p, polygon)
  {
    if k > 0 {
      var a, b := polygon[0], polygon[k];
      var front, back := polygon[1..k], polygon[k + 1..];
      RotationPieces(polygon, k);
      WalkSplit(p, [a] + front, b, back + [a]);
      WalkSplit(p, [b] + back, a, front + [b]);
    } else {
      assert polygon[k..] + polygon[..k] == polygon;
    }
  }

  lemma RotationPieces(polygon: seq<Point>, k: nat)
    requires 0 < k < |polygon|
    ensures var a, b, front, back := polygon[0], polygon[k], polygon[1..k], polygon[k + 1..];
            var rotated := polygon[k..] + polygon[..k];
            && polygon + [a] == ([a] + front) + [b] + (back + [a])
            && rotated + [rotated[0]] == ([b] + back) + [a] + (front + [b])
            && ([a] + front) + [b] == [a] + (front + [b])
            && ([b] + back) + [a] == [b] + (back + [a])
  {
    assert polygon[..k] == [polygon[0]] + polygon[1..k];
    assert polygon[k..] == [polygon[k]] + polygon[k + 1..];
    assert polygon == polygon[..k] + polygon[k..];
  }

  lemma ReversalInvariant(p: Point, polygon: seq<Point>)
    ensures Ring(p, Reversed(polygon)) == Ring(p, polygon)
  {
    if polygon != [] {
      var r, n := Reversed(polygon), |polygon|;
      ReversedRing(polygon);
      WalkReversed(p, r + [r[0]]);
      RotationInvariant(p, polygon, n - 1);
    }
  }

  /** A closed ring read backwards is the ring started at its last vertex. */
  lemma ReversedRing(polygon: seq<Point>)
    requires polygon != []
    ensures var r, n := Reversed(polygon), |polygon|;
            var rotated := polygon[n - 1..] + polygon[..n - 1];
            Reversed(r + [r[0]]) == rotated + [rotated[0]]
  {
    var r, n := Reversed(polygon), |polygon|;
    var rotated := polygon[n - 1..] + polygon[..n - 1];
    assert rotated + [rotated[0]] == [polygon[n - 1]] + polygon;
    assert Reversed(r + [r[0]]) == [polygon[n - 1]] + polygon;
  }

  /** Cutting a ring along the chord between two of its vertices splits the answer: exactly one part differs. */
  lemma ChordSplit(p: Point, polygon: seq<Point>, i: nat, j: nat)
    requires i < j < |polygon|
    ensures Ring(p, polygon) == (Ring(p, polygon[..i + 1] + polygon[j..]) != Ring(p, polygon[i..j + 1]))
  {
    var first, a, b := polygon[0], polygon[i], polygon[j];
    var head, mid, tail := polygon[..i], polygon[i + 1..j], polygon[j + 1..] + [first];
    ChordPieces(polygon, i, j);
    WalkSplitTwice(p, head, a, mid, b, tail);
    WalkSplitTwice(p, head, a, [], b, tail);
    WalkSplit(p, [a] + mid, b, [a]);
    ChordCrossesTwice(p, a, b);
  }

  lemma ChordPieces(polygon: seq<Point>, i: nat, j: nat)
    requires i < j < |polygon|
    ensures var first, a, b := polygon[0], polygon[i], polygon[j];
            var head, mid, tail := polygon[..i], polygon[i + 1..j], polygon[j + 1..] + [first];
            var outer, inner := polygon[..i + 1] + polygon[j..], polygon[i..j + 1];
            && polygon + [first] == head + [a] + mid + [b] + tail
            && outer + [outer[0]] == head + [a] + [] + [b] + tail
            && inner + [inner[0]] == [a] + mid + [b] + [a]
  {
    var head, mid, tail := polygon[..i], polygon[i + 1..j], polygon[j + 1..];
    assert polygon == head + [polygon[i]] + mid + [polygon[j]] + tail;
    assert polygon[..i + 1] == head + [polygon[i]];
    assert polygon[j..] == [polygon[j]] + tail;
    assert polygon[i..j + 1] == [polygon[i]] + mid + [polygon[j]];
  }

  lemma ChordCrossesTwice(p: Point, a: Point, b: Point)
    ensures Walk(p, [a] + [] + [b]) == Walk(p, [b] + [a])
  {
    assert [a] + [] + [b] == [a, b] && [b] + [a] == [b, a];
    WalkOfTwo(p, a, b);
    WalkOfTwo(p, b, a);
    CrossesSymmetric(p, a, b);
  }

  lemma WalkSplitTwice(p: Point, head: seq<Point>, a: Point, mid: seq<Point>, b: Point, tail: seq<Point>)
    ensures Walk(p, head + [a] + mid + [b] + tail)
         == ((Walk(p, head + [a]) != Walk(p, [a] + mid + [b])) != Walk(p, [b] + tail))
  {
    WalkSplit(p, head + [a] + mid, b, tail);
    WalkSplit(p, head, a, mid + [b]);
    assert head + [a] + mid + [b] == head + [a] + (mid + [b]);
    assert [a] + mid + [b] == [a] + (mid + [b]);
  }

  // ---------- refining an edge ----------

  /** The point that divides the edge from `a` to `b` in the ratio t : 1 - t. */
  function Between(a: Point, b: Point, t: real): Point {
    (a.0 + t * (b.0 - a.0), a.1 + t * (b.1 - a.1))
  }

  lemma BetweenReversed(a: Point, b: Point, t: real)
    ensures Between(b, a, 1.0 - t) == Between(a, b, t)
  {
    assert (1.0 - t) * (a.0 - b.0) == (a.0 - b.0) + t * (b.0 - a.0);
    assert (1.0 - t) * (a.1 - b.1) == (a.1 - b.1) + t * (b.1 - a.1);
  }

  lemma SideOfPart(p: Point, a: Point, b: Point, t: real)
    ensures Side(p, a, Between(a, b, t)) == t * Side(p, a, b)
    ensures Side(p, Between(a, b, t), b) == (1.0 - t) * Side(p, a, b)
  {
    var dx, dy, x, y := b.0 - a.0, b.1 - a.1, p.0 - a.0, p.1 - a.1;
    assert Side(p, a, Between(a, b, t)) == (t * dx) * y - (t * dy) * x;
    assert (t * dx) * y == t * (dx * y) && (t * dy) * x == t * (dy * x);
    var m := Between(a, b, t);
    var tx, ty := t * dx, t * dy;
    assert Side(p, m, b) == (dx - tx) * (y - ty) - (dy - ty) * (x - tx);
    assert (dx - tx) * (y - ty) - (dy - ty) * (x - tx) == dx * y - dy * x - (tx * y - ty * x) - (dx * ty - dy * tx);
    assert dx * ty == dy * tx by { assert dx * (t * dy) == dy * (t * dx); }
  }

  lemma CrossesPart(p: Point, a: Point, b: Point, t: real)
    requires 0.0 <= t <= 1.0
    ensures var m := Between(a, b, t);
            Crosses(p, a, b) == (Crosses(p, a, m) != Crosses(p, m, b))
  {
    var m := Between(a, b, t);
    var s := Side(p, a, b);
    SideOfPart(p, a, b, t);
    ProductSign(t, b.1 - a.1);
    ProductSign(1.0 - t, b.1 - a.1);
    assert b.1 - m.1 == (1.0 - t) * (b.1 - a.1);
    ProductSign(t, s);
    ProductSign(1.0 - t, s);
  }

  /** A vertex inserted on an edge does not change the answer. */
  lemma InsertionInvariant(p: Point, polygon: seq<Point>, i: nat, t: real)
    requires i + 1 < |polygon| && 0.0 <= t <= 1.0
    ensures Ring(p, polygon[..i + 1] + [Between(polygon[i], polygon[i + 1], t)] + polygon[i + 1..]) == Ring(p, polygon)
  {
    var a, b := polygon[i], polygon[i + 1];
    var m := Between(a, b, t);
    CrossesPart(p, a, b, t);
    EdgeReplaced(p, polygon[..i], [a, b], [a, m, b], polygon[i + 2..] + [polygon[0]]);
    WalkOfTwo(p, a, b);
    WalkOfThree(p, a, m, b);
    InsertionPieces(polygon, i, m);
  }

  /** Nor one inserted on the edge that closes the ring. */
  lemma ClosingInsertionInvariant(p: Point, polygon: seq<Point>, t: real)
    requires polygon != [] && 0.0 <= t <= 1.0
    ensures Ring(p, polygon + [Between(polygon[|polygon| - 1], polygon[0], t)]) == Ring(p, polygon)
  {
    var n := |polygon|;
    var a, b := polygon[n - 1], polygon[0];
    var m := Between(a, b, t);
    CrossesPart(p, a, b, t);
    EdgeReplaced(p, polygon[..n - 1], [a, b], [a, m, b], []);
    WalkOfTwo(p, a, b);
    WalkOfThree(p, a, m, b);
    ClosingPieces(polygon, m);
  }

  lemma ClosingPieces(polygon: seq<Point>, m: Point)
    requires polygon != []
    ensures var n := |polygon|;
            var head, a, b := polygon[..n - 1], polygon[n - 1], polygon[0];
            && polygon + [b] == head + [a, b] + []
            && polygon + [m] + [(polygon + [m])[0]] == head + [a, m, b] + []
  {
    assert polygon == polygon[..|polygon| - 1] + [polygon[|polygon| - 1]];
  }

  /** A stretch of a walk may be replaced by any with the same ends and the same answer. */
  lemma EdgeReplaced(p: Point, head: seq<Point>, s: seq<Point>, t: seq<Point>, tail: seq<Point>)
    requires |s| >= 2 && |t| >= 2 && s[0] == t[0] && s[|s| - 1] == t[|t| - 1]
    ensures (Walk(p, head + s + tail) == Walk(p, head + t + tail)) <==> (Walk(p, s) == Walk(p, t))
  {
    StretchOfWalk(p, head, s, tail);
    StretchOfWalk(p, head, t, tail);
  }

  lemma StretchOfWalk(p: Point, head: seq<Point>, s: seq<Point>, tail: seq<Point>)
    requires |s| >= 2
    ensures Walk(p, head + s + tail)
         == ((Walk(p, head + [s[0]]) != Walk(p, s)) != Walk(p, [s[|s| - 1]] + tail))
  {
    var mid := s[1..|s| - 1];
    assert s == [s[0]] + mid + [s[|s| - 1]];
    assert head + s + tail == head + [s[0]] + mid + [s[|s| - 1]] + tail;
    WalkSplitTwice(p, head, s[0], mid, s[|s| - 1], tail);
  }

  lemma InsertionPieces(polygon: seq<Point>, i: nat, m: Point)
    requires i + 1 < |polygon|
    ensures var head, tail := polygon[..i], polygon[i + 2..] + [polygon[0]];
            var a, b := polygon[i], polygon[i + 1];
            var inserted := polygon[..i + 1] + [m] + polygon[i + 1..];
            && polygon + [polygon[0]] == head + [a, b] + tail
            && inserted + [inserted[0]] == head + [a, m, b] + tail
  {
    assert polygon == polygon[..i] + [polygon[i], polygon[i + 1]] + polygon[i + 2..];
    assert polygon[..i + 1] == polygon[..i] + [polygon[i]];
    assert polygon[i + 1..] == [polygon[i + 1]] + polygon[i + 2..];
  }

  // ---------- fans ----------

  /** How many of the triangles (v0, v[i], v[i+1]) with i + 1 < k contain `p`. */
  function FanCount(p: Point, polygon: seq<Point>, k: nat): nat
    requires k <= |polygon|
  {
    if k < 3 then 0
    else FanCount(p, polygon, k - 1) + if Ring(p, [polygon[0], polygon[k - 2], polygon[k - 1]]) then 1 else 0
  }

  /** A point is in the polygon exactly when an odd number of the triangles of its fan contain it. */
  lemma {:induction false} FanParity(p: Point, polygon: seq<Point>, k: nat)
    requires k <= |polygon|
    ensures Ring(p, polygon[..k]) <==> FanCount(p, polygon, k) % 2 == 1
  {
    if k < 3 {
      SmallRingsContainNothing(p, polygon[..k]);
    } else {
      FanParity(p, polygon, k - 1);
      FanStep(p, polygon, k);
    }
  }

  lemma FanStep(p: Point, polygon: seq<Point>, k: nat)
    requires 3 <= k <= |polygon|
    ensures Ring(p, polygon[..k]) == (Ring(p, [polygon[0], polygon[k - 2], polygon[k - 1]]) != Ring(p,
        polygon[..k - 1]))
  {
    var q := polygon[..k];
    ChordSplit(p, q, 0, k - 2);
    assert q[..0 + 1] + q[k - 2..] == [polygon[0], polygon[k - 2], polygon[k - 1]];
    assert q[0..k - 2 + 1] == polygon[..k - 1];
  }

  // ---------- crossings and the bounding box ----------

  predicate Straddles(a: Point, b: Point, y: real) {
    Below(a, y) != Below(b, y)
  }

  function StraddleCount(path: seq<Point>, y: real): nat {
    if |path| < 2 then 0
    else StraddleCount(path[..|path| - 1], y) + if Straddles(path[|path| - 2], path[|path| - 1], y) then 1 else 0
  }

  lemma {:induction false} StraddleParity(path: seq<Point>, y: real)
    requires path != []
    ensures StraddleCount(path, y) % 2 == if Straddles(path[0], path[|path| - 1], y) then 1 else 0
  {
    if |path| >= 2 {
      StraddleParity(path[..|path| - 1], y);
    }
  }

  /** A closed ring passes any level an even number of times. */
  lemma RingStraddlesEvenly(polygon: seq<Point>, y: real)
    requires polygon != []
    ensures StraddleCount(polygon + [polygon[0]], y) % 2 == 0
  {
    StraddleParity(polygon + [polygon[0]], y);
  }

  lemma {:induction false} WalkLeftOfAll(p: Point, path: seq<Point>)
    requires forall v | v in path :: p.0 <= v.0
    ensures Walk(p, path) <==> StraddleCount(path, p.1) % 2 == 1
  {
    if |path| >= 2 {
      var k := |path| - 1;
      WalkLeftOfAll(p, path[..k]);
      CrossesLeftOfBoth(p, path[k - 1], path[k]);
    }
  }

  lemma CrossesLeftOfBoth(p: Point, a: Point, b: Point)
    requires p.0 <= a.0 && p.0 <= b.0
    ensures Crosses(p, a, b) == Straddles(a, b, p.1)
  {
    SideByEnds(p, a, b);
    ProductSign(b.1 - p.1, p.0 - a.0);
    ProductSign(p.1 - a.1, p.0 - b.0);
  }

  lemma {:induction false} WalkNeverCrosses(p: Point, path: seq<Point>)
    requires (forall v | v in path :: Below(v, p.1)) || (forall v | v in path :: !Below(v, p.1))
          || (forall v | v in path :: v.0 < p.0)
    ensures !Walk(p, path)
  {
    if |path| >= 2 {
      var k := |path| - 1;
      WalkNeverCrosses(p, path[..k]);
      var a, b := path[k - 1], path[k];
      assert a in path && b in path;
      if Crosses(p, a, b) {
        SideAntisymmetric(p, a, b);
        if Below(a, p.1) {
          LeftOfAnEnd(p, a, b);
        } else {
          LeftOfAnEnd(p, b, a);
        }
      }
    }
  }

  /** Nothing outside the bounding box is inside; nor is anything on its left or bottom side. */
  lemma OutsideBoxIsOutside(p: Point, polygon: seq<Point>)
    requires (forall v | v in polygon :: p.0 <= v.0) || (forall v | v in polygon :: v.0 < p.0)
          || (forall v | v in polygon :: p.1 <= v.1) || (forall v | v in polygon :: v.1 < p.1)
    ensures !Ring(p, polygon)
  {
    if polygon != [] {
      var closed := polygon + [polygon[0]];
      assert forall v | v in closed :: v in polygon;
      if forall v | v in polygon :: p.0 <= v.0 {
        RingStraddlesEvenly(polygon, p.1);
        WalkLeftOfAll(p, closed);
      } else {
        WalkNeverCrosses(p, closed);
      }
    }
  }

  // ---------- agreement with half-plane tests ----------

  /** Twice the signed area of the triangle; positive when its vertices run counterclockwise. */
  function Area2(a: Point, b: Point, c: Point): real {
    Side(c, a, b)
  }

  lemma SidesAddUp(p: Point, a: Point, b: Point, c: Point)
    ensures Side(p, a, b) + Side(p, b, c) + Side(p, c, a) == Area2(a, b, c)
  {
  }

  /** The sides are barycentric weights: they balance the heights of the vertices about `p`. */
  lemma SidesBalance(p: Point, a: Point, b: Point, c: Point)
    ensures (a.1 - p.1) * Side(p, b, c) + (b.1 - p.1) * Side(p, c, a) + (c.1 - p.1) * Side(p, a, b) == 0.0
  {
    var a0, a1, b0, b1, c0, c1 := a.0 - p.0, a.1 - p.1, b.0 - p.0, b.1 - p.1, c.0 - p.0, c.1 - p.1;
    SideAbout(p, b, c);
    SideAbout(p, c, a);
    SideAbout(p, a, b);
    assert a1 * (b0 * c1 - b1 * c0) + b1 * (c0 * a1 - c1 * a0) + c1 * (a0 * b1 - a1 * b0) == 0.0;
  }

  lemma SideAbout(p: Point, a: Point, b: Point)
    ensures Side(p, a, b) == (a.0 - p.0) * (b.1 - p.1) - (a.1 - p.1) * (b.0 - p.0)
  {
  }

  /** The same for the signs alone, which is all that the crossings depend on. */
  lemma HeightsBalance(p: Point, a: Point, b: Point, c: Point) returns (x: real, y: real, z: real)
    ensures x + y + z == 0.0
    ensures SignOfProduct(x, a.1 - p.1, Side(p, b, c))
    ensures SignOfProduct(y, b.1 - p.1, Side(p, c, a))
    ensures SignOfProduct(z, c.1 - p.1, Side(p, a, b))
  {
    x := Product(a.1 - p.1, Side(p, b, c));
    y := Product(b.1 - p.1, Side(p, c, a));
    z := Product(c.1 - p.1, Side(p, a, b));
    SidesBalance(p, a, b, c);
  }

  lemma Product(a: real, b: real) returns (x: real)
    ensures x == a * b && SignOfProduct(x, a, b)
  {
    x := a * b;
    ProductHasSign(a, b);
  }

  lemma ProductHasSign(a: real, b: real)
    ensures SignOfProduct(a * b, a, b)
  {
    ProductSign(a, b);
  }

  predicate SignOfProduct(x: real, a: real, b: real) {
    && (a == 0.0 || b == 0.0 ==> x == 0.0)
    && ((a > 0.0 && b > 0.0) || (a < 0.0 && b < 0.0) ==> x > 0.0)
    && ((a > 0.0 && b < 0.0) || (a < 0.0 && b > 0.0) ==> x < 0.0)
  }

  predicate AllPositive(p: Point, a: Point, b: Point, c: Point) {
    Side(p, a, b) > 0.0 && Side(p, b, c) > 0.0 && Side(p, c, a) > 0.0
  }

  predicate AllNegative(p: Point, a: Point, b: Point, c: Point) {
    Side(p, a, b) < 0.0 && Side(p, b, c) < 0.0 && Side(p, c, a) < 0.0
  }

  predicate OffAllLines(p: Point, a: Point, b: Point, c: Point) {
    Side(p, a, b) != 0.0 && Side(p, b, c) != 0.0 && Side(p, c, a) != 0.0
  }

  /** Off the lines through its edges, a triangle contains just the points on one side of all three. */
  lemma TriangleIsHalfPlanes(p: Point, a: Point, b: Point, c: Point)
    requires OffAllLines(p, a, b, c)
    ensures Ring(p, [a, b, c]) <==> AllPositive(p, a, b, c) || AllNegative(p, a, b, c)
  {
    TriangleRing(p, a, b, c);
    var x, y, z := HeightsBalance(p, a, b, c);
    LevelEdgeSide(p, a, b);
  }

  /** An edge that runs at the height of `p` has `p` on its line. */
  lemma LevelEdgeSide(p: Point, a: Point, b: Point)
    ensures a.1 == p.1 && b.1 == p.1 ==> Side(p, a, b) == 0.0
  {
  }

  /** A counterclockwise triangle contains no point that is outside it, even on the lines of its edges. */
  lemma OutsideTriangle(p: Point, a: Point, b: Point, c: Point)
    requires Area2(a, b, c) > 0.0
    requires Side(p, a, b) < 0.0 || Side(p, b, c) < 0.0 || Side(p, c, a) < 0.0
    ensures !Ring(p, [a, b, c])
  {
    TriangleRing(p, a, b, c);
    var x, y, z := HeightsBalance(p, a, b, c);
    SidesAddUp(p, a, b, c);
  }

  /** And likewise a clockwise one. */
  lemma OutsideTriangleClockwise(p: Point, a: Point, b: Point, c: Point)
    requires Area2(a, b, c) < 0.0
    requires Side(p, a, b) > 0.0 || Side(p, b, c) > 0.0 || Side(p, c, a) > 0.0
    ensures !Ring(p, [a, b, c])
  {
    SideAntisymmetric(p, a, b);
    SideAntisymmetric(p, b, c);
    SideAntisymmetric(p, c, a);
    SidesAddUp(p, a, b, c);
    SidesAddUp(p, c, b, a);
    OutsideTriangle(p, c, b, a);
    ReversalInvariant(p, [a, b, c]);
    assert Reversed([a, b, c]) == [c, b, a];
  }

  /** How many triangles of the fan have `p` on the same side of all three of their edges. */
  function HalfPlaneCount(p: Point, polygon: seq<Point>, k: nat): nat
    requires k <= |polygon|
  {
    if k < 3 then 0
    else
      var a, b, c := polygon[0], polygon[k - 2], polygon[k - 1];
      HalfPlaneCount(p, polygon, k - 1) + if AllPositive(p, a, b, c) || AllNegative(p, a, b, c) then 1 else 0
  }

  predicate OffFanTriangle(p: Point, polygon: seq<Point>, i: nat)
    requires 3 <= i <= |polygon|
  {
    OffAllLines(p, polygon[0], polygon[i - 2], polygon[i - 1])
  }

  /**
    For any polygon, crossing itself or not, and any point off the lines of its fan, the answer is the
    parity of the fan triangles that contain the point by the half-plane test.
  */
  lemma PolygonIsHalfPlanes(p: Point, polygon: seq<Point>)
    requires forall i | 3 <= i <= |polygon| :: OffFanTriangle(p, polygon, i)
    ensures Ring(p, polygon) <==> HalfPlaneCount(p, polygon, |polygon|) % 2 == 1
  {
    FanParity(p, polygon, |polygon|);
    assert polygon[..|polygon|] == polygon;
    FanCountsAgree(p, polygon, |polygon|);
  }

  lemma {:induction false} FanCountsAgree(p: Point, polygon: seq<Point>, k: nat)
    requires k <= |polygon|
    requires forall i | 3 <= i <= k :: OffFanTriangle(p, polygon, i)
    ensures FanCount(p, polygon, k) == HalfPlaneCount(p, polygon, k)
  {
    if k >= 3 {
      FanCountsAgree(p, polygon, k - 1);
      assert OffFanTriangle(p, polygon, k);
      TriangleIsHalfPlanes(p, polygon[0], polygon[k - 2], polygon[k - 1]);
    }
  }

  /**
    Which sides belong to a zone: an upright rectangle contains its right and top sides, not its left and
    bottom ones, so rectangles that tile an area contain each of its points once.
  */
  lemma RectangleIsHalfOpen(p: Point, x0: real, y0: real, x1: real, y1: real)
    requires x0 <= x1 && y0 <= y1
    ensures Ring(p, [(x0, y0), (x1, y0), (x1, y1), (x0, y1)]) <==> x0 < p.0 <= x1 && y0 < p.1 <= y1
  {
    var a, b, c, d := (x0, y0), (x1, y0), (x1, y1), (x0, y1);
    var q := [a, b, c, d];
    FanStep(p, q, 4);
    FanStep(p, q, 3);
    SmallRingsContainNothing(p, q[..2]);
    assert q[..4] == q && q[..3] == [a, b, c];
    TriangleRing(p, a, b, c);
    TriangleRing(p, a, c, d);
    CrossesSymmetric(p, a, c);
    UprightEdge(p, x1, y0, y1);
    UprightEdge(p, x0, y0, y1);
    CrossesSymmetric(p, (x0, y0), (x0, y1));
  }

  lemma UprightEdge(p: Point, x: real, y0: real, y1: real)
    requires y0 <= y1
    ensures Crosses(p, (x, y0), (x, y1)) <==> y0 < p.1 <= y1 && p.0 <= x
  {
    ProductSign(y1 - y0, p.0 - x);
  }
}
