/** `isPointInside`: the ray-crossing test for a point in a polygon. */
module RayCrossing {
  import opened Reals

  datatype Point = Point(x: real, y: real)

  /** The ray from `p` along X+ meets the line of edge `a b`: one end is at or above the ray, the other below. */
  predicate Straddles(p: Point, a: Point, b: Point) {
    (p.y <= a.y) == (p.y > b.y)
  }

  /** Where the edge meets the ray's line; the division is never by zero. */
  function Intersection(p: Point, a: Point, b: Point): real
    requires Straddles(p, a, b)
  {
    a.x + (p.y - a.y) * (b.x - a.x) / (b.y - a.y)
  }

  predicate Crosses(p: Point, a: Point, b: Point) {
    Straddles(p, a, b) && Intersection(p, a, b) > p.x
  }

  /** Whether an odd number of edges of an open chain of vertices crosses the ray. */
  function Parity(p: Point, chain: seq<Point>): bool {
    if |chain| < 2 then false else Crosses(p, chain[0], chain[1]) != Parity(p, chain[1..])
  }

  /** The polygon as a closed chain, from the last vertex round to the last vertex. */
  function Closed(poly: seq<Point>): seq<Point> {
    if poly == [] then [] else [poly[|poly| - 1]] + poly
  }

  function Inside(poly: seq<Point>, p: Point): bool {
    Parity(p, Closed(poly))
  }

  /** The loop of the source: one pass over the edges, toggling the answer. */
  method IsPointInside(poly: seq<Point>, point: Point) returns (res: bool)
    ensures res == Inside(poly, point)
  {
    hide Parity, Intersection;
    var n := |poly|;
    ghost var closed := Closed(poly);
    ParityShort(point, closed[..if n == 0 then 0 else 1]);
    res := false;
    var i := n - 1;
    var j := 0;
    while j < n
      invariant 0 <= j <= n && i == (if j == 0 then n - 1 else j - 1)
      invariant n > 0 ==> closed[j] == poly[i] && res == Parity(point, closed[..j + 1])
      invariant n == 0 ==> !res
    {
      var a, b := poly[i], poly[j];
      ghost var before := closed[..j + 1];
      assert before[|before| - 1] == a;
      ParityLast(point, before, b);
      assert before + [b] == closed[..j + 2];
      if (point.y <= a.y) == (point.y > b.y) {
        var xInter := a.x + (point.y - a.y) * (b.x - a.x) / (b.y - a.y);
        IntersectionIs(point, a, b);
        if xInter > point.x {
          res := !res;
        }
      }
      i := j;
      j := j + 1;
    }
    assert closed[..if n == 0 then 0 else n + 1] == closed;
  }

  lemma IntersectionIs(p: Point, a: Point, b: Point)
    requires Straddles(p, a, b)
    ensures Intersection(p, a, b) == a.x + (p.y - a.y) * (b.x - a.x) / (b.y - a.y)
  {
  }

  // ---------------------------------------------------------------- chains

  lemma ParityShort(p: Point, s: seq<Point>)
    requires |s| < 2
    ensures !Parity(p, s)
  {
  }

  /** Splitting a chain at a vertex splits its parity. */
  lemma {:induction false} ParityConcat(p: Point, s: seq<Point>, v: Point, t: seq<Point>)
    ensures Parity(p, s + [v] + t) == (Parity(p, s + [v]) != Parity(p, [v] + t))
  {
    if s == [] {
      assert s + [v] + t == [v] + t;
    } else {
      assert (s + [v] + t)[1..] == s[1..] + [v] + t;
      assert (s + [v])[1..] == s[1..] + [v];
      ParityConcat(p, s[1..], v, t);
    }
  }

  lemma ParityFirst(p: Point, v: Point, s: seq<Point>)
    requires |s| > 0
    ensures Parity(p, [v] + s) == (Crosses(p, v, s[0]) != Parity(p, s))
  {
    assert ([v] + s)[1..] == s;
  }

  lemma ParityLast(p: Point, s: seq<Point>, v: Point)
    requires |s| > 0
    ensures Parity(p, s + [v]) == (Parity(p, s) != Crosses(p, s[|s| - 1], v))
  {
    var s', u := s[..|s| - 1], s[|s| - 1];
    ParityConcat(p, s', u, [v]);
    assert s' + [u] + [v] == s + [v] && s' + [u] == s;
    assert ([u] + [v])[1..] == [v];
  }

  // ---------------------------------------------------------------- rotation

  /** A polygon that ends in `v`, split after a vertex `u`. */
  lemma InsideParts(s: seq<Point>, u: Point, t: seq<Point>, v: Point, p: Point)
    ensures Inside((s + [u]) + (t + [v]), p) == (Parity(p, [v] + s + [u]) != Parity(p, [u] + t + [v]))
  {
    var poly := (s + [u]) + (t + [v]);
    assert poly[|poly| - 1] == v;
    assert Closed(poly) == ([v] + s) + [u] + (t + [v]);
    ParityConcat(p, [v] + s, u, t + [v]);
    assert [u] + (t + [v]) == [u] + t + [v];
  }

  /** Any vertex may come first. */
  lemma Rotated(poly: seq<Point>, k: nat, p: Point)
    requires k <= |poly|
    ensures Inside(poly[k..] + poly[..k], p) == Inside(poly, p)
  {
    hide Parity, Inside;
    if 0 < k < |poly| {
      var s, t, u, v := poly[..k - 1], poly[k..|poly| - 1], poly[k - 1], poly[|poly| - 1];
      assert poly[..k] == s + [u] && poly[k..] == t + [v];
      assert poly == poly[..k] + poly[k..];
      InsideParts(s, u, t, v, p);
      InsideParts(t, v, s, u, p);
    } else {
      assert poly[k..] + poly[..k] == poly;
    }
  }

  // ---------------------------------------------------------------- reversal

  function Reversed(s: seq<Point>): (r: seq<Point>)
    ensures |r| == |s|
    ensures forall i | 0 <= i < |s| :: r[i] == s[|s| - 1 - i]
  {
    if s == [] then [] else Reversed(s[1..]) + [s[0]]
  }

  /** Where an edge meets the ray does not depend on its direction. */
  lemma IntersectionSymmetric(p: Point, a: Point, b: Point)
    ensures Straddles(p, a, b) <==> Straddles(p, b, a)
    ensures Straddles(p, a, b) ==> Intersection(p, a, b) == Intersection(p, b, a)
  {
    if Straddles(p, a, b) {
      var d := b.y - a.y;
      var t := (p.y - a.y) / d;
      var u := (p.y - b.y) / (a.y - b.y);
      QuotientScales(p.y - a.y, b.x - a.x, d);
      QuotientScales(p.y - b.y, a.x - b.x, a.y - b.y);
      QuotientsAddUp(p.y - a.y, b.y - p.y, d);
      assert (p.y - b.y) / (a.y - b.y) == (b.y - p.y) / d by {
        QuotientSign(b.y - p.y, d);
      }
      assert t + u == 1.0;
      assert t * (b.x - a.x) + u * (b.x - a.x) == b.x - a.x by {
        assert (t + u) * (b.x - a.x) == b.x - a.x;
      }
    }
  }

  lemma QuotientScales(n: real, m: real, d: real)
    requires d != 0.0
    ensures n * m / d == (n / d) * m
  {
    var q := n / d;
    assert q * d == n;
    assert (q * m) * d == n * m;
  }

  lemma QuotientsAddUp(m: real, n: real, d: real)
    requires d != 0.0 && m + n == d
    ensures m / d + n / d == 1.0
  {
    assert (m + n) / d == 1.0;
  }

  lemma QuotientSign(n: real, d: real)
    requires d != 0.0
    ensures (-n) / (-d) == n / d
  {
    var q := n / d;
    assert q * d == n;
    assert q * (-d) == -n;
  }

  lemma CrossesSymmetric(p: Point, a: Point, b: Point)
    ensures Crosses(p, a, b) == Crosses(p, b, a)
  {
    hide Intersection;
    IntersectionSymmetric(p, a, b);
  }

  lemma {:induction false} ParityReversed(p: Point, s: seq<Point>)
    ensures Parity(p, Reversed(s)) == Parity(p, s)
  {
    hide Intersection;
    if |s| > 1 {
      ParityReversed(p, s[1..]);
      var r := Reversed(s[1..]);
      assert Reversed(s) == r + [s[0]] && r[|r| - 1] == s[1];
      ParityLast(p, r, s[0]);
      CrossesSymmetric(p, s[0], s[1]);
    }
  }

  /** The orientation of the polygon does not matter. */
  lemma ReversedPolygon(poly: seq<Point>, p: Point)
    ensures Inside(Reversed(poly), p) == Inside(poly, p)
  {
    hide Parity;
    if |poly| > 0 {
      var n := |poly|;
      var r := Reversed(poly);
      ParityReversed(p, Closed(poly));
      assert Reversed(Closed(poly)) == r + [r[0]];
      var back := r[1..] + r[..1];
      assert Closed(back) == r + [r[0]] by {
        assert back == r[1..] + [r[0]];
        assert Closed(back) == [r[0]] + back;
        assert r == [r[0]] + r[1..];
      }
      Rotated(r, 1, p);
    } else {
      assert Reversed(poly) == poly;
    }
  }

  // ---------------------------------------------------------------- sides of an edge

  /** Positive when `p` is to the left of the edge from `a` to `b`. */
  function Side(p: Point, a: Point, b: Point): real {
    (b.x - a.x) * (p.y - a.y) - (b.y - a.y) * (p.x - a.x)
  }

  predicate Above(p: Point, v: Point) {
    p.y <= v.y
  }

  lemma QuotientCompared(n: real, d: real, e: real)
    ensures d > 0.0 ==> (n / d > e <==> n - e * d > 0.0)
    ensures d < 0.0 ==> (n / d > e <==> n - e * d < 0.0)
  {
    if d != 0.0 {
      var q := n / d;
      var r := q - e;
      QuotientTimes(n, d);
      assert n - e * d == r * d;
      SignOfProduct(r, d);
    }
  }

  /** An upward edge crosses when the point is to its left, a downward one when it is to its right. */
  lemma CrossesIffSide(p: Point, a: Point, b: Point)
    ensures !Above(p, a) && Above(p, b) ==> (Crosses(p, a, b) <==> Side(p, a, b) > 0.0)
    ensures Above(p, a) && !Above(p, b) ==> (Crosses(p, a, b) <==> Side(p, a, b) < 0.0)
    ensures Above(p, a) == Above(p, b) ==> !Crosses(p, a, b)
  {
    if Straddles(p, a, b) {
      QuotientCompared((p.y - a.y) * (b.x - a.x), b.y - a.y, p.x - a.x);
    }
  }

  // ---------------------------------------------------------------- splitting an edge

  /** `m` lies on the segment from `a` to `b`, at the fraction `t`. */
  ghost predicate OnEdge(a: Point, b: Point, m: Point, t: real) {
    0.0 <= t <= 1.0 && m.x == a.x + Times(t, b.x - a.x) && m.y == a.y + Times(t, b.y - a.y)
  }

  lemma SidesOfParts(p: Point, a: Point, b: Point, m: Point, t: real)
    requires OnEdge(a, b, m, t)
    ensures Side(p, a, m) == Times(t, Side(p, a, b))
    ensures Side(p, m, b) == Times(1.0 - t, Side(p, a, b))
  {
    var dx, dy, ex, ey := b.x - a.x, b.y - a.y, p.x - a.x, p.y - a.y;
    assert m.x - a.x == t * dx && m.y - a.y == t * dy;
    assert Side(p, a, m) == (t * dx) * ey - (t * dy) * ex;
    assert b.x - m.x == (1.0 - t) * dx && b.y - m.y == (1.0 - t) * dy;
    assert Side(p, m, b) == ((1.0 - t) * dx) * (ey - t * dy) - ((1.0 - t) * dy) * (ex - t * dx);
    CrossOfScaled(dx, dy, ex, ey, t);
  }

  lemma CrossOfScaled(dx: real, dy: real, ex: real, ey: real, t: real)
    ensures (t * dx) * ey - (t * dy) * ex == t * (dx * ey - dy * ex)
    ensures ((1.0 - t) * dx) * (ey - t * dy) - ((1.0 - t) * dy) * (ex - t * dx) == (1.0 - t) * (dx * ey - dy * ex)
  {
    var u := 1.0 - t;
    assert dx * (ey - t * dy) - dy * (ex - t * dx) == dx * ey - dy * ex;
    assert (u * dx) * (ey - t * dy) - (u * dy) * (ex - t * dx) == u * (dx * (ey - t * dy) - dy * (ex - t * dx));
  }

  lemma Between(a: real, b: real, t: real)
    requires 0.0 <= t <= 1.0
    ensures var m := a + Times(t, b - a); (a <= b ==> a <= m <= b) && (b <= a ==> b <= m <= a)
    ensures t == 0.0 ==> a + Times(t, b - a) == a
    ensures t == 1.0 ==> a + Times(t, b - a) == b
  {
    hide Times;
    SignOfTimes(t, b - a);
    SignOfTimes(1.0 - t, b - a);
    RestOfTimes(t, b - a);
  }

  lemma PartEnds(a: Point, b: Point, m: Point, t: real)
    requires OnEdge(a, b, m, t)
    ensures 0.0 <= t <= 1.0
    ensures t == 0.0 ==> m == a
    ensures t == 1.0 ==> m == b
    ensures (a.y <= b.y ==> a.y <= m.y <= b.y) && (b.y <= a.y ==> b.y <= m.y <= a.y)
  {
    hide Times;
    Between(a.x, b.x, t);
    Between(a.y, b.y, t);
  }

  /** Each part of an edge has the point on the edge's side, unless the part is a point. */
  lemma PartsKeepSide(p: Point, a: Point, b: Point, m: Point, t: real)
    requires OnEdge(a, b, m, t)
    ensures t > 0.0 ==> (Side(p, a, m) > 0.0 <==> Side(p, a, b) > 0.0) && (Side(p, a, m) < 0.0 <==> Side(p, a, b) < 0.0)
    ensures t < 1.0 ==> (Side(p, m, b) > 0.0 <==> Side(p, a, b) > 0.0) && (Side(p, m, b) < 0.0 <==> Side(p, a, b) < 0.0)
  {
    hide Side, OnEdge, Times;
    PartEnds(a, b, m, t);
    SidesOfParts(p, a, b, m, t);
    SignOfTimes(t, Side(p, a, b));
    SignOfTimes(1.0 - t, Side(p, a, b));
  }

  /** An edge crosses iff exactly one of its two parts does. */
  lemma SplitCrossing(p: Point, a: Point, b: Point, m: Point, t: real)
    requires OnEdge(a, b, m, t)
    ensures Crosses(p, a, b) == (Crosses(p, a, m) != Crosses(p, m, b))
  {
    hide Crosses, Side, OnEdge;
    PartEnds(a, b, m, t);
    PartsKeepSide(p, a, b, m, t);
    CrossesIffSide(p, a, b);
    CrossesIffSide(p, a, m);
    CrossesIffSide(p, m, b);
  }

  lemma SplitChain(p: Point, s: seq<Point>, a: Point, m: Point, b: Point, t: seq<Point>, f: real)
    requires OnEdge(a, b, m, f)
    ensures Parity(p, s + [a] + ([m, b] + t)) == Parity(p, s + [a] + ([b] + t))
  {
    hide Crosses, Parity, OnEdge;
    ParityConcat(p, s, a, [m, b] + t);
    ParityConcat(p, s, a, [b] + t);
    assert [m, b] + t == [m] + ([b] + t);
    ParityFirst(p, a, [m] + ([b] + t));
    ParityFirst(p, m, [b] + t);
    ParityFirst(p, a, [b] + t);
    SplitCrossing(p, a, b, m, f);
  }

  /** A further vertex on the edge before vertex `k` (for the first, on the closing edge) changes nothing. */
  lemma SplitEdge(poly: seq<Point>, k: nat, m: Point, t: real, p: Point)
    requires k < |poly| && OnEdge(Closed(poly)[k], poly[k], m, t)
    ensures Inside(poly[..k] + [m] + poly[k..], p) == Inside(poly, p)
  {
    hide Parity, OnEdge;
    var closed, more := Closed(poly), poly[..k] + [m] + poly[k..];
    var a, b := closed[k], poly[k];
    assert more[|more| - 1] == poly[|poly| - 1];
    assert closed == closed[..k] + [a] + ([b] + poly[k + 1..]);
    assert Closed(more) == closed[..k] + [a] + ([m, b] + poly[k + 1..]);
    SplitChain(p, closed[..k], a, m, b, poly[k + 1..], t);
  }

  // ---------------------------------------------------------------- cutting along a diagonal

  /** Cutting a polygon along the line from its first vertex to vertex `k`: inside the whole iff inside one part. */
  lemma CutAlongDiagonal(poly: seq<Point>, k: nat, p: Point)
    requires 0 < k < |poly|
    ensures Inside(poly, p) == (Inside(poly[..k + 1], p) != Inside([poly[0]] + poly[k..], p))
  {
    hide Parity, Crosses;
    var u, v, last := poly[0], poly[k], poly[|poly| - 1];
    var front, back := poly[..k + 1], [u] + poly[k..];
    assert Closed(poly) == ([last] + poly[..k]) + [v] + poly[k + 1..];
    ParityConcat(p, [last] + poly[..k], v, poly[k + 1..]);
    assert [last] + poly[..k] + [v] == [last] + front;
    assert front == [u] + front[1..];
    ParityConcat(p, [last], u, front[1..]);
    assert [last] + [u] + front[1..] == [last] + front && [u] + front[1..] == front;
    assert Closed(front) == [v] + front;
    ParityConcat(p, [v], u, front[1..]);
    assert [v] + [u] + front[1..] == [v] + front;
    assert back[|back| - 1] == last;
    assert Closed(back) == [last, u] + [v] + poly[k + 1..];
    ParityConcat(p, [last, u], v, poly[k + 1..]);
    assert [last, u] + [v] == [last] + [u] + [v];
    ParityConcat(p, [last], u, [v]);
    ParityPair(p, u, v);
    ParityPair(p, v, u);
    CrossesSymmetric(p, u, v);
  }

  lemma ParityPair(p: Point, a: Point, b: Point)
    ensures Parity(p, [a] + [b]) == Crosses(p, a, b)
  {
    assert ([a] + [b])[1..] == [b];
  }

  // ---------------------------------------------------------------- outside the bounding box

  /** If every edge that straddles the ray crosses it, only the ends of the chain matter. */
  lemma {:induction false} StraddleParity(p: Point, s: seq<Point>)
    requires |s| > 0 && forall i | 0 < i < |s| :: Crosses(p, s[i - 1], s[i]) == Straddles(p, s[i - 1], s[i])
    ensures Parity(p, s) == (Above(p, s[0]) != Above(p, s[|s| - 1]))
  {
    hide Crosses;
    if |s| > 1 {
      StraddleParity(p, s[1..]);
      assert Crosses(p, s[0], s[1]) == Straddles(p, s[0], s[1]) by {
        assert Crosses(p, s[1 - 1], s[1]) == Straddles(p, s[1 - 1], s[1]);
      }
    }
  }

  lemma {:induction false} NoCrossing(p: Point, s: seq<Point>)
    requires forall i | 0 < i < |s| :: !Crosses(p, s[i - 1], s[i])
    ensures !Parity(p, s)
  {
    hide Crosses;
    if |s| > 1 {
      NoCrossing(p, s[1..]);
      assert !Crosses(p, s[1 - 1], s[1]);
    }
  }

  /** Left of both ends an edge that straddles crosses; right of both it does not. */
  lemma BesideEdge(p: Point, a: Point, b: Point)
    ensures p.x < a.x && p.x < b.x && Straddles(p, a, b) ==> Crosses(p, a, b)
    ensures p.x >= a.x && p.x >= b.x ==> !Crosses(p, a, b)
  {
    hide Crosses;
    CrossesIffSide(p, a, b);
    SideBeside(b.x - a.x, p.y - a.y, b.y - a.y, p.x - a.x);
  }

  /** The sign of `dx * v - h * u` for a point beside the box of the edge. */
  lemma SideBeside(dx: real, v: real, h: real, u: real)
    ensures u < 0.0 && u < dx && 0.0 < v <= h ==> dx * v - h * u > 0.0
    ensures u < 0.0 && u < dx && h < v <= 0.0 ==> dx * v - h * u < 0.0
    ensures u >= 0.0 && u >= dx && 0.0 < v <= h ==> dx * v - h * u <= 0.0
    ensures u >= 0.0 && u >= dx && h < v <= 0.0 ==> dx * v - h * u >= 0.0
  {
    var e, f := dx - u, v - h;
    assert dx * v - h * u == e * v + f * u;
    SignOfProduct(e, v);
    SignOfProduct(f, u);
  }

  /** A point beyond all vertices in some direction is reported outside. */
  lemma OutsideBoundingBox(poly: seq<Point>, p: Point)
    requires || (forall v <- poly :: p.x < v.x) || (forall v <- poly :: p.x >= v.x)
             || (forall v <- poly :: p.y <= v.y) || (forall v <- poly :: p.y > v.y)
    ensures !Inside(poly, p)
  {
    hide Crosses, Parity;
    var closed := Closed(poly);
    if poly == [] {
      ParityShort(p, closed);
    } else if forall v <- poly :: p.x < v.x {
      forall i | 0 < i < |closed|
        ensures Crosses(p, closed[i - 1], closed[i]) == Straddles(p, closed[i - 1], closed[i])
      {
        VerticesOf(poly, i);
        BesideEdge(p, closed[i - 1], closed[i]);
        CrossesIffSide(p, closed[i - 1], closed[i]);
      }
      StraddleParity(p, closed);
    } else {
      forall i | 0 < i < |closed|
        ensures !Crosses(p, closed[i - 1], closed[i])
      {
        VerticesOf(poly, i);
        BesideEdge(p, closed[i - 1], closed[i]);
        CrossesIffSide(p, closed[i - 1], closed[i]);
      }
      NoCrossing(p, closed);
    }
  }

  lemma VerticesOf(poly: seq<Point>, i: nat)
    requires 0 < i < |Closed(poly)|
    ensures Closed(poly)[i - 1] in poly && Closed(poly)[i] in poly
  {
  }

  // ---------------------------------------------------------------- triangles

  /** Barycentric coordinates: the sides weigh the opposite vertices. */
  lemma Barycentric(p: Point, a: Point, b: Point, c: Point)
    ensures Side(p, a, b) * (c.y - p.y) + Side(p, b, c) * (a.y - p.y) + Side(p, c, a) * (b.y - p.y) == 0.0
  {
    var ax1, ay1, bx1, by1, cx1, cy1 := a.x - p.x, a.y - p.y, b.x - p.x, b.y - p.y, c.x - p.x, c.y - p.y;
    SideAt(p, a, b);
    SideAt(p, b, c);
    SideAt(p, c, a);
    assert (ax1 * by1 - ay1 * bx1) * cy1 + (bx1 * cy1 - by1 * cx1) * ay1 + (cx1 * ay1 - cy1 * ax1) * by1 == 0.0;
  }

  lemma SideAt(p: Point, a: Point, b: Point)
    ensures Side(p, a, b) == (a.x - p.x) * (b.y - p.y) - (a.y - p.y) * (b.x - p.x)
  {
    var ax1, ay1, bx1, by1 := a.x - p.x, a.y - p.y, b.x - p.x, b.y - p.y;
    assert b.x - a.x == bx1 - ax1 && b.y - a.y == by1 - ay1 && p.y - a.y == -ay1 && p.x - a.x == -ax1;
    assert (bx1 - ax1) * (-ay1) - (by1 - ay1) * (-ax1) == ax1 * by1 - ay1 * bx1;
  }

  /** Three numbers with weights that cancel out: signs of two decide the third. */
  lemma Balance(u: real, v: real, w: real, a: real, b: real, c: real)
    requires u * a + v * b + w * c == 0.0
    ensures u > 0.0 && v >= 0.0 && a < 0.0 && b < 0.0 && c >= 0.0 ==> w > 0.0
    ensures u <= 0.0 && v < 0.0 && a < 0.0 && b < 0.0 && c >= 0.0 ==> w < 0.0
    ensures u > 0.0 && v >= 0.0 && a >= 0.0 && b >= 0.0 && c < 0.0 ==> w >= 0.0
    ensures u <= 0.0 && v < 0.0 && a >= 0.0 && b >= 0.0 && c < 0.0 ==> w <= 0.0
    ensures u > 0.0 && v > 0.0 && w > 0.0 ==> !(a < 0.0 && b < 0.0 && c < 0.0)
    ensures u > 0.0 && v > 0.0 && w > 0.0 && a >= 0.0 && b >= 0.0 && c >= 0.0 ==> a == 0.0 && b == 0.0 && c == 0.0
  {
    SignOfProduct(u, a);
    SignOfProduct(v, b);
    SignOfProduct(w, c);
  }

  lemma TriangleParity(a: Point, b: Point, c: Point, p: Point)
    ensures Inside([a, b, c], p) == (Crosses(p, c, a) != (Crosses(p, a, b) != Crosses(p, b, c)))
  {
    hide Crosses, Parity;
    assert Closed([a, b, c]) == [c] + [a, b, c];
    assert [a, b, c] == [a] + [b, c] && [b, c] == [b] + [c];
    ParityFirst(p, c, [a, b, c]);
    ParityFirst(p, a, [b, c]);
    ParityPair(p, b, c);
  }

  /** Two of the vertices, in order, on one side of the ray's line and the third on the other. */
  lemma TriangleCase(a: Point, b: Point, c: Point, p: Point)
    requires Side(p, a, b) + Side(p, b, c) + Side(p, c, a) > 0.0
    requires Above(p, a) == Above(p, b) != Above(p, c)
    ensures Inside([a, b, c], p) ==> Side(p, a, b) >= 0.0 && Side(p, b, c) >= 0.0 && Side(p, c, a) >= 0.0
    ensures Side(p, a, b) > 0.0 && Side(p, b, c) > 0.0 && Side(p, c, a) > 0.0 ==> Inside([a, b, c], p)
  {
    hide Crosses, Side, Inside;
    TriangleParity(a, b, c, p);
    CrossesIffSide(p, a, b);
    CrossesIffSide(p, b, c);
    CrossesIffSide(p, c, a);
    Barycentric(p, a, b, c);
    Balance(Side(p, b, c), Side(p, c, a), Side(p, a, b), a.y - p.y, b.y - p.y, c.y - p.y);
    Balance(Side(p, c, a), Side(p, b, c), Side(p, a, b), b.y - p.y, a.y - p.y, c.y - p.y);
  }

  /** If the ray's line misses the triangle, or just touches it, the point is not strictly inside. */
  lemma TriangleMissed(a: Point, b: Point, c: Point, p: Point)
    requires Above(p, a) == Above(p, b) == Above(p, c)
    ensures !Inside([a, b, c], p)
    ensures !(Side(p, a, b) > 0.0 && Side(p, b, c) > 0.0 && Side(p, c, a) > 0.0)
  {
    hide Crosses, Inside;
    TriangleParity(a, b, c, p);
    CrossesIffSide(p, a, b);
    CrossesIffSide(p, b, c);
    CrossesIffSide(p, c, a);
    Barycentric(p, a, b, c);
    Balance(Side(p, b, c), Side(p, c, a), Side(p, a, b), a.y - p.y, b.y - p.y, c.y - p.y);
    FlatTriangle(a, b, p);
  }

  lemma FlatTriangle(a: Point, b: Point, p: Point)
    ensures a.y == p.y && b.y == p.y ==> Side(p, a, b) == 0.0
  {
  }

  /**
   For a triangle with its vertices counter-clockwise: a point strictly to the left of all three sides
   is reported inside, and a point reported inside is to the right of none.
   */
  lemma Triangle(a: Point, b: Point, c: Point, p: Point)
    requires Side(p, a, b) + Side(p, b, c) + Side(p, c, a) > 0.0
    ensures Side(p, a, b) > 0.0 && Side(p, b, c) > 0.0 && Side(p, c, a) > 0.0 ==> Inside([a, b, c], p)
    ensures Inside([a, b, c], p) ==> Side(p, a, b) >= 0.0 && Side(p, b, c) >= 0.0 && Side(p, c, a) >= 0.0
  {
    hide Side, Inside;
    var tri := [a, b, c];
    assert tri[1..] + tri[..1] == [b, c, a];
    assert tri[2..] + tri[..2] == [c, a, b];
    Rotated(tri, 1, p);
    Rotated(tri, 2, p);
    if Above(p, a) == Above(p, b) == Above(p, c) {
      TriangleMissed(a, b, c, p);
    } else if Above(p, a) == Above(p, b) {
      TriangleCase(a, b, c, p);
    } else if Above(p, b) == Above(p, c) {
      TriangleCase(b, c, a, p);
    } else {
      TriangleCase(c, a, b, p);
    }
  }
}
