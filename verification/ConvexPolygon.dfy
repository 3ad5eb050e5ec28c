/** What the ray-crossing test means: half-planes for any polygon, both directions for convex ones. */
module ConvexPolygon {
  import opened Reals
  import opened RayCrossing

  // ---------------------------------------------------------------- beyond a line

  /** How far `v` lies beyond `p` in the direction `(nx, ny)`. */
  function Toward(nx: real, ny: real, p: Point, v: Point): real {
    nx * (v.x - p.x) + ny * (v.y - p.y)
  }

  lemma SideBeyond(nx: real, ny: real, p: Point, a: Point, b: Point)
    ensures Times(nx, Side(p, a, b))
            == Times(Toward(nx, ny, p, a), b.y - p.y) - Times(Toward(nx, ny, p, b), a.y - p.y)
  {
    var u, v, s, t := a.x - p.x, a.y - p.y, b.x - p.x, b.y - p.y;
    SideAt(p, a, b);
    assert nx * (u * t - v * s) == (nx * u + ny * v) * t - (nx * s + ny * t) * v;
  }

  /** The ray meets every edge that straddles it, or none, as it points towards the edges or not. */
  lemma EdgeBeyond(nx: real, ny: real, p: Point, a: Point, b: Point)
    requires Toward(nx, ny, p, a) > 0.0 && Toward(nx, ny, p, b) > 0.0
    ensures nx > 0.0 ==> Crosses(p, a, b) == Straddles(p, a, b)
    ensures nx <= 0.0 ==> !Crosses(p, a, b)
  {
    hide Crosses, Side, Toward, Times;
    SideBeyond(nx, ny, p, a, b);
    CrossesIffSide(p, a, b);
    SignOfTimes(Toward(nx, ny, p, a), b.y - p.y);
    SignOfTimes(Toward(nx, ny, p, b), a.y - p.y);
    SignOfTimes(nx, Side(p, a, b));
  }

  /** A line with all vertices strictly on its other side: the point is reported outside, whatever the polygon. */
  lemma OutsideHalfPlane(poly: seq<Point>, p: Point, nx: real, ny: real)
    requires forall v <- poly :: Toward(nx, ny, p, v) > 0.0
    ensures !Inside(poly, p)
  {
    hide Crosses, Parity, Toward;
    var closed := Closed(poly);
    if poly == [] {
      ParityShort(p, closed);
    } else {
      forall i | 0 < i < |closed|
        ensures nx > 0.0 ==> Crosses(p, closed[i - 1], closed[i]) == Straddles(p, closed[i - 1], closed[i])
        ensures nx <= 0.0 ==> !Crosses(p, closed[i - 1], closed[i])
      {
        VerticesOf(poly, i);
        EdgeBeyond(nx, ny, p, closed[i - 1], closed[i]);
      }
      if nx > 0.0 {
        StraddleParity(p, closed);
      } else {
        NoCrossing(p, closed);
      }
    }
  }

  // ---------------------------------------------------------------- convex polygons

  /** Any three vertices, in order, turn to the left. */
  ghost predicate Convex(poly: seq<Point>) {
    forall i, j, k | 0 <= i < j < k < |poly| :: LeftTurn(poly[i], poly[j], poly[k])
  }

  predicate LeftTurn(a: Point, b: Point, c: Point) {
    Side(c, a, b) > 0.0
  }

  lemma SideCyclic(a: Point, b: Point, c: Point)
    ensures Side(c, a, b) == Side(a, b, c)
    ensures Side(a, a, b) == 0.0 && Side(b, a, b) == 0.0
  {
    var u, v, s, t := a.x - c.x, a.y - c.y, b.x - c.x, b.y - c.y;
    SideAt(c, a, b);
    assert c.x - b.x == -s && a.y - b.y == v - t && c.y - b.y == -t && a.x - b.x == u - s;
    assert (-s) * (v - t) - (-t) * (u - s) == u * t - v * s;
  }

  /** A vertex before, at or after two that follow each other, in a convex polygon. */
  lemma LeftOfSuccessors(a: Point, b: Point, v: Point)
    requires v == a || v == b || LeftTurn(a, b, v) || LeftTurn(v, a, b)
    ensures Side(v, a, b) >= 0.0
  {
    hide Side;
    SideCyclic(a, b, v);
    SideCyclic(v, a, b);
  }

  /** A vertex of a convex polygon and the edge that closes it. */
  lemma LeftOfClosing(first: Point, last: Point, v: Point)
    requires v == first || v == last || LeftTurn(first, v, last)
    ensures Side(v, last, first) >= 0.0
  {
    hide Side;
    SideCyclic(first, v, last);
    SideCyclic(v, last, first);
    SideCyclic(last, first, v);
  }

  /** Every vertex lies on the left of every edge, or on it. */
  lemma VertexLeftOfEdge(poly: seq<Point>, i: nat, v: nat)
    requires Convex(poly) && 0 < i <= |poly| && v < |poly|
    ensures Side(poly[v], Closed(poly)[i - 1], Closed(poly)[i]) >= 0.0
  {
    hide Side, LeftTurn;
    if i == 1 {
      LeftOfClosing(poly[0], poly[|poly| - 1], poly[v]);
    } else {
      LeftOfSuccessors(poly[i - 2], poly[i - 1], poly[v]);
    }
  }

  lemma TowardLeft(p: Point, v: Point, a: Point, b: Point)
    ensures Toward(a.y - b.y, b.x - a.x, p, v) == Side(v, a, b) - Side(p, a, b)
  {
    var dx, dy := b.x - a.x, b.y - a.y;
    assert dx * (v.y - a.y) - dx * (p.y - a.y) == dx * (v.y - p.y);
    assert dy * (v.x - a.x) - dy * (p.x - a.x) == dy * (v.x - p.x);
    assert (-dy) * (v.x - p.x) == -(dy * (v.x - p.x)) && a.y - b.y == -dy;
  }

  /** Seen from a point on the right of an edge, all vertices lie beyond the edge's line. */
  lemma BeyondEdge(poly: seq<Point>, p: Point, i: nat, v: Point)
    requires Convex(poly) && 0 < i <= |poly| && v in poly
    ensures var a, b := Closed(poly)[i - 1], Closed(poly)[i];
            Side(p, a, b) < 0.0 ==> Toward(a.y - b.y, b.x - a.x, p, v) > 0.0
  {
    hide Side, Toward, Convex;
    var j :| 0 <= j < |poly| && poly[j] == v;
    VertexLeftOfEdge(poly, i, j);
    TowardLeft(p, v, Closed(poly)[i - 1], Closed(poly)[i]);
  }

  /** A point reported inside a convex polygon is strictly right of no edge. */
  lemma ReportedNotRight(poly: seq<Point>, p: Point, i: nat)
    requires Convex(poly) && 0 < i <= |poly| && Inside(poly, p)
    ensures Side(p, Closed(poly)[i - 1], Closed(poly)[i]) >= 0.0
  {
    hide Side, Toward, Inside, Convex;
    var a, b := Closed(poly)[i - 1], Closed(poly)[i];
    var nx, ny := a.y - b.y, b.x - a.x;
    forall v <- poly
      ensures Side(p, a, b) < 0.0 ==> Toward(nx, ny, p, v) > 0.0
    {
      BeyondEdge(poly, p, i, v);
    }
    if forall v <- poly :: Toward(nx, ny, p, v) > 0.0 {
      OutsideHalfPlane(poly, p, nx, ny);
    }
  }

  // ---------------------------------------------------------------- strictly left of all edges

  /** Four vertices in order do not lie below and above the ray's line in turns. */
  lemma NotInTurns(a: Point, b: Point, c: Point, d: Point, p: Point)
    requires LeftTurn(a, b, c) && LeftTurn(a, b, d) && LeftTurn(a, c, d) && LeftTurn(b, c, d)
    ensures !(!Above(p, a) && Above(p, b) && !Above(p, c) && Above(p, d))
    ensures !(Above(p, a) && !Above(p, b) && Above(p, c) && !Above(p, d))
  {
    hide Side, Times;
    QuadHeights(a, b, c, d, p);
    SignOfTimes(Side(d, b, c), a.y - p.y);
    SignOfTimes(Side(d, a, c), b.y - p.y);
    SignOfTimes(Side(d, a, b), c.y - p.y);
    SignOfTimes(Side(c, a, b), d.y - p.y);
  }

  /** The diagonals of a quadrilateral meet: weighted by the triangles they leave, opposite heights agree. */
  lemma QuadHeights(a: Point, b: Point, c: Point, d: Point, p: Point)
    ensures Times(Side(d, b, c), a.y - p.y) + Times(Side(d, a, b), c.y - p.y)
            == Times(Side(d, a, c), b.y - p.y) + Times(Side(c, a, b), d.y - p.y)
  {
    hide Side;
    Barycentric(d, a, b, c);
    SideSum(a, b, c, d);
    var abd, bcd, cad, h := Side(d, a, b), Side(d, b, c), Side(d, c, a), d.y - p.y;
    var u, v, w := a.y - d.y, b.y - d.y, c.y - d.y;
    assert a.y - p.y == u + h && b.y - p.y == v + h && c.y - p.y == w + h;
    Weighed(abd, bcd, cad, u, v, w, h);
  }

  lemma Weighed(abd: real, bcd: real, cad: real, u: real, v: real, w: real, h: real)
    requires abd * w + bcd * u + cad * v == 0.0
    ensures bcd * (u + h) + abd * (w + h) == (-cad) * (v + h) + (abd + bcd + cad) * h
  {
  }

  lemma SideSum(a: Point, b: Point, c: Point, d: Point)
    ensures Side(d, a, c) == -Side(d, c, a)
    ensures Side(c, a, b) == Side(d, a, b) + Side(d, b, c) + Side(d, c, a)
  {
    var ax1, ay1, bx1, by1, cx1, cy1 := a.x - d.x, a.y - d.y, b.x - d.x, b.y - d.y, c.x - d.x, c.y - d.y;
    SideAt(d, a, b);
    SideAt(d, b, c);
    SideAt(d, c, a);
    SideAt(d, a, c);
    SideAt(c, a, b);
    assert a.x - c.x == ax1 - cx1 && b.y - c.y == by1 - cy1 && a.y - c.y == ay1 - cy1 && b.x - c.x == bx1 - cx1;
  }

  /** Strictly left of both edges at a vertex, a point is neither below its lowest nor above its highest vertex. */
  lemma ExtremeVertex(a: Point, b: Point, c: Point, p: Point)
    requires LeftTurn(a, b, c) && Side(p, a, b) > 0.0 && Side(p, b, c) > 0.0
    ensures b.y <= a.y && b.y <= c.y ==> !Above(p, b)
    ensures b.y >= a.y && b.y >= c.y ==> Above(p, b)
  {
    hide Side, Times;
    TurnHeights(a, b, c, p);
    SignOfTimes(Side(c, a, b), p.y - b.y);
    SignOfTimes(c.y - b.y, Side(p, a, b));
    SignOfTimes(b.y - a.y, Side(p, b, c));
    FlatTurn(a, b, c);
  }

  lemma TurnHeights(a: Point, b: Point, c: Point, p: Point)
    ensures Times(Side(c, a, b), p.y - b.y) == Times(c.y - b.y, Side(p, a, b)) - Times(b.y - a.y, Side(p, b, c))
  {
    var ex, ey, fx, fy, ux, uy := b.x - a.x, b.y - a.y, c.x - b.x, c.y - b.y, p.x - b.x, p.y - b.y;
    assert c.y - a.y == fy + ey && c.x - a.x == fx + ex && p.y - a.y == uy + ey && p.x - a.x == ux + ex;
    assert ex * (fy + ey) - ey * (fx + ex) == ex * fy - ey * fx;
    assert ex * (uy + ey) - ey * (ux + ex) == ex * uy - ey * ux;
    assert (ex * fy - ey * fx) * uy == fy * (ex * uy - ey * ux) - ey * (fx * uy - fy * ux);
  }

  lemma FlatTurn(a: Point, b: Point, c: Point)
    ensures b.y == a.y && c.y == b.y ==> Side(c, a, b) == 0.0
  {
  }

  ghost predicate LeftOfAll(poly: seq<Point>, p: Point) {
    forall i | 0 < i < |Closed(poly)| :: Side(p, Closed(poly)[i - 1], Closed(poly)[i]) > 0.0
  }

  function Previous(n: nat, m: nat): nat
    requires m < n
  {
    if m == 0 then n - 1 else m - 1
  }

  function Next(n: nat, m: nat): nat
    requires m < n
  {
    if m == n - 1 then 0 else m + 1
  }

  lemma TurnAt(poly: seq<Point>, p: Point, m: nat)
    requires Convex(poly) && LeftOfAll(poly, p) && m < |poly| && |poly| >= 3
    ensures var a, b, c := poly[Previous(|poly|, m)], poly[m], poly[Next(|poly|, m)];
            LeftTurn(a, b, c) && Side(p, a, b) > 0.0 && Side(p, b, c) > 0.0
  {
    hide Side;
    var n, closed, next := |poly|, Closed(poly), Next(|poly|, m);
    assert closed[m] == poly[Previous(n, m)] && closed[m + 1] == poly[m];
    assert closed[next] == poly[m] && closed[next + 1] == poly[next];
    assert Side(p, closed[m + 1 - 1], closed[m + 1]) > 0.0 && Side(p, closed[next + 1 - 1], closed[next + 1]) > 0.0;
    SideCyclic(poly[0], poly[1], poly[n - 1]);
    SideCyclic(poly[1], poly[n - 1], poly[0]);
    SideCyclic(poly[0], poly[n - 2], poly[n - 1]);
    assert LeftTurn(poly[0], poly[1], poly[n - 1]) && LeftTurn(poly[0], poly[n - 2], poly[n - 1]);
  }

  /** The lowest vertex, or the highest if `sign` is negative. */
  lemma {:induction false} Extreme(poly: seq<Point>, sign: real) returns (m: nat)
    requires |poly| > 0 && (sign == 1.0 || sign == -1.0)
    ensures m < |poly| && forall i | 0 <= i < |poly| :: sign * poly[m].y <= sign * poly[i].y
  {
    if |poly| == 1 {
      m := 0;
    } else {
      var last := |poly| - 1;
      m := Extreme(poly[..last], sign);
      if sign * poly[last].y < sign * poly[m].y {
        m := last;
      }
    }
  }

  lemma BothSides(poly: seq<Point>, p: Point) returns (low: nat, high: nat)
    requires Convex(poly) && LeftOfAll(poly, p) && |poly| >= 3
    ensures low < |poly| && high < |poly| && !Above(p, poly[low]) && Above(p, poly[high])
  {
    hide Side, LeftTurn, LeftOfAll, Convex;
    var up, down, n := 1.0, -1.0, |poly|;
    low := Extreme(poly, up);
    high := Extreme(poly, down);
    TurnAt(poly, p, low);
    TurnAt(poly, p, high);
    ExtremeVertex(poly[Previous(n, low)], poly[low], poly[Next(n, low)], p);
    ExtremeVertex(poly[Previous(n, high)], poly[high], poly[Next(n, high)], p);
  }

  predicate Up(p: Point, a: Point, b: Point) {
    !Above(p, a) && Above(p, b)
  }

  lemma {:induction false} UpBetween(p: Point, s: seq<Point>, low: nat, high: nat) returns (i: nat)
    requires low < high < |s| && !Above(p, s[low]) && Above(p, s[high])
    ensures low < i <= high && Up(p, s[i - 1], s[i])
    decreases high - low
  {
    if Above(p, s[low + 1]) {
      i := low + 1;
    } else {
      i := UpBetween(p, s, low + 1, high);
    }
  }

  lemma UpEdge(poly: seq<Point>, p: Point) returns (i: nat)
    requires Convex(poly) && LeftOfAll(poly, p) && |poly| >= 3
    ensures 0 < i <= |poly| && Up(p, Closed(poly)[i - 1], Closed(poly)[i])
  {
    hide LeftOfAll, Convex;
    var low, high := BothSides(poly, p);
    var closed, n := Closed(poly), |poly|;
    assert closed[low + 1] == poly[low] && closed[high + 1] == poly[high] && closed[0] == closed[n];
    if low < high {
      i := UpBetween(p, closed, low + 1, high + 1);
    } else if Above(p, closed[n]) {
      i := UpBetween(p, closed, low + 1, n);
    } else {
      i := UpBetween(p, closed, 0, high + 1);
    }
  }

  lemma QuadOfConvex(poly: seq<Point>, p: Point, a: nat, b: nat, c: nat, d: nat)
    requires Convex(poly) && a < b < c < d < |poly|
    ensures !(!Above(p, poly[a]) && Above(p, poly[b]) && !Above(p, poly[c]) && Above(p, poly[d]))
    ensures !(Above(p, poly[a]) && !Above(p, poly[b]) && Above(p, poly[c]) && !Above(p, poly[d]))
  {
    hide LeftTurn, Above;
    NotInTurns(poly[a], poly[b], poly[c], poly[d], p);
  }

  /** Round a convex polygon the ray's line is crossed upwards once at most. */
  lemma OneUpEdge(poly: seq<Point>, p: Point, i: nat, j: nat)
    requires Convex(poly) && 0 < i < j <= |poly|
    ensures !(Up(p, Closed(poly)[i - 1], Closed(poly)[i]) && Up(p, Closed(poly)[j - 1], Closed(poly)[j]))
  {
    hide Convex, Above;
    var n, closed := |poly|, Closed(poly);
    assert closed[i] == poly[i - 1] && closed[j - 1] == poly[j - 2] && closed[j] == poly[j - 1];
    assert i > 1 ==> closed[i - 1] == poly[i - 2];
    if i + 1 < j && i > 1 {
      QuadOfConvex(poly, p, i - 2, i - 1, j - 2, j - 1);
    } else if i + 1 < j < n {
      var first := 0;
      QuadOfConvex(poly, p, first, j - 2, j - 1, n - 1);
    }
  }

  lemma OneCrossing(p: Point, s: seq<Point>, i: nat)
    requires 0 < i < |s| && Crosses(p, s[i - 1], s[i])
    requires forall j | 0 < j < |s| && j != i :: !Crosses(p, s[j - 1], s[j])
    ensures Parity(p, s)
  {
    hide Crosses, Parity;
    var front, back, v := s[..i - 1], s[i..], s[i - 1];
    assert s == front + [v] + back;
    ParityConcat(p, front, v, back);
    assert front + [v] == s[..i];
    NoCrossing(p, s[..i]);
    ParityFirst(p, v, back);
    forall j | 0 < j < |back|
      ensures !Crosses(p, back[j - 1], back[j])
    {
      assert !Crosses(p, s[i + j - 1], s[i + j]);
    }
    NoCrossing(p, back);
  }

  /** A point strictly left of every edge of a convex polygon is reported inside. */
  lemma LeftIsReported(poly: seq<Point>, p: Point)
    requires Convex(poly) && LeftOfAll(poly, p) && |poly| >= 3
    ensures Inside(poly, p)
  {
    hide Crosses, Parity, Side, Convex;
    var closed := Closed(poly);
    var i := UpEdge(poly, p);
    forall j | 0 < j < |closed|
      ensures Crosses(p, closed[j - 1], closed[j]) <==> j == i
    {
      CrossesIffSide(p, closed[j - 1], closed[j]);
      if j < i {
        OneUpEdge(poly, p, j, i);
      } else if i < j {
        OneUpEdge(poly, p, i, j);
      }
    }
    OneCrossing(p, closed, i);
  }
}
