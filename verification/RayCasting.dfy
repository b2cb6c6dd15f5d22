/** Point-in-polygon by ray casting, as both zone managers do it
    (backend/app/services/zone_manager.py, services/cv-pipeline/zone_manager.py),
    over the reals. The two differ in the small number that is added to the
    denominator, which is a parameter here. */
module RayCasting {
  import opened Parts

  datatype Point = Point(x: real, y: real)

  /** ZeroDivisionError is a result of its own. */
  datatype Answer = Inside(value: bool) | ZeroDivision

  /** An edge as the loop sees it: the vertex at i and the one before it. */
  datatype Edge = Edge(at: Point, prev: Point)

  const BACKEND_EPSILON: real := 0.000000000001
  const PIPELINE_EPSILON: real := 0.000000001

  predicate Straddles(e: Edge, y: real) {
    (e.at.y > y) != (e.prev.y > y)
  }

  function Denominator(e: Edge, eps: real): (r: real) {
    e.prev.y - e.at.y + eps
  }

  /** Where the code takes the edge to meet the horizontal line at y. */
  function Meets(e: Edge, y: real, eps: real): (r: real)
    requires Denominator(e, eps) != 0.0
  {
    (e.prev.x - e.at.x) * (y - e.at.y) / Denominator(e, eps) + e.at.x
  }

  predicate Faulty(e: Edge, p: Point, eps: real) {
    Straddles(e, p.y) && Denominator(e, eps) == 0.0
  }

  /** Does this edge toggle the flag? */
  predicate Toggles(e: Edge, p: Point, eps: real) {
    Straddles(e, p.y) && Denominator(e, eps) != 0.0 && p.x < Meets(e, p.y, eps)
  }

  function Edges(vs: seq<Point>): (r: seq<Edge>)
    ensures |r| == |vs|
    ensures forall k :: 0 <= k < |vs| ==> r[k] == Edge(vs[k], vs[if k == 0 then |vs| - 1 else k - 1])
  {
    seq(|vs|, k requires 0 <= k < |vs| => Edge(vs[k], vs[if k == 0 then |vs| - 1 else k - 1]))
  }

  // ----- the answer for a list of edges

  predicate Odd(es: seq<Edge>, p: Point, eps: real) {
    es != [] && Odd(es[..|es| - 1], p, eps) != Toggles(es[|es| - 1], p, eps)
  }

  predicate AnyFaulty(es: seq<Edge>, p: Point, eps: real) {
    exists k :: 0 <= k < |es| && Faulty(es[k], p, eps)
  }

  function Contains(vs: seq<Point>, p: Point, eps: real): (r: Answer) {
    if AnyFaulty(Edges(vs), p, eps) then ZeroDivision else Inside(Odd(Edges(vs), p, eps))
  }

  lemma {:induction false} OddConcat(a: seq<Edge>, b: seq<Edge>, p: Point, eps: real)
    ensures Odd(a + b, p, eps) <==> Odd(a, p, eps) != Odd(b, p, eps)
  {
    if b == [] {
      assert a + b == a;
    } else {
      OddConcat(a, b[..|b| - 1], p, eps);
      assert (a + b)[..|a + b| - 1] == a + b[..|b| - 1];
    }
  }

  lemma AnyFaultyConcat(a: seq<Edge>, b: seq<Edge>, p: Point, eps: real)
    ensures AnyFaulty(a + b, p, eps) <==> AnyFaulty(a, p, eps) || AnyFaulty(b, p, eps)
  {
    hide Faulty;
    var c := a + b;
    assert forall k :: 0 <= k < |a| ==> c[k] == a[k];
    assert forall k :: 0 <= k < |b| ==> c[|a| + k] == b[k];
    if AnyFaulty(c, p, eps) {
      var k :| 0 <= k < |c| && Faulty(c[k], p, eps);
      if k >= |a| {
        assert Faulty(b[k - |a|], p, eps);
      } else {
        assert Faulty(a[k], p, eps);
      }
    }
    if AnyFaulty(b, p, eps) {
      var k :| 0 <= k < |b| && Faulty(b[k], p, eps);
      assert Faulty(c[|a| + k], p, eps);
    }
    if AnyFaulty(a, p, eps) {
      var k :| 0 <= k < |a| && Faulty(a[k], p, eps);
      assert Faulty(c[k], p, eps);
    }
  }

  // ----- the loop

  method ContainsPoint(vs: seq<Point>, p: Point, eps: real) returns (r: Answer)
    ensures r == Contains(vs, p, eps)
  {
    hide Toggles, Faulty, Odd;
    var n := |vs|;
    var inside := false;
    OddPrefix(Edges(vs), p, eps);
    var j := n - 1;
    ghost var es := Edges(vs);
    var i := 0;
    while i < n
      invariant 0 <= i <= n && j == if i == 0 then n - 1 else i - 1
      invariant forall k :: 0 <= k < i ==> !Faulty(es[k], p, eps)
      invariant inside == Odd(es[..i], p, eps)
    {
      var e := Edge(vs[i], vs[j]);
      var f, t := TestEdge(e, p, eps);
      assert e == es[i];
      if f {
        return ZeroDivision;
      }
      if t {
        inside := !inside;
      }
      j := i;
      i := i + 1;
    }
    assert es[..n] == es;
    return Inside(inside);
  }

  lemma OddPrefix(es: seq<Edge>, p: Point, eps: real)
    ensures !Odd(es[..0], p, eps)
    ensures forall i :: 0 <= i < |es| ==> (Odd(es[..i + 1], p, eps) <==> Odd(es[..i], p, eps) != Toggles(es[i], p, eps))
  {
    hide Toggles;
    forall i | 0 <= i < |es|
      ensures Odd(es[..i + 1], p, eps) <==> Odd(es[..i], p, eps) != Toggles(es[i], p, eps)
    {
      assert es[..i + 1][..i] == es[..i];
    }
  }

  /** The condition of the loop: `and` evaluates the division only when the edge
      straddles the line. */
  method TestEdge(e: Edge, p: Point, eps: real) returns (fault: bool, toggle: bool)
    ensures fault == Faulty(e, p, eps)
    ensures toggle == Toggles(e, p, eps)
  {
    fault, toggle := false, false;
    if (e.at.y > p.y) != (e.prev.y > p.y) {
      var d := e.prev.y - e.at.y + eps;
      if d == 0.0 {
        fault := true;
      } else {
        toggle := p.x < (e.prev.x - e.at.x) * (p.y - e.at.y) / d + e.at.x;
      }
    }
  }

  // ----- any polygon

  lemma EdgesRotated(vs: seq<Point>, r: nat)
    requires r <= |vs|
    ensures Edges(vs[r..] + vs[..r]) == Edges(vs)[r..] + Edges(vs)[..r]
  {
    var n, ws := |vs|, vs[r..] + vs[..r];
    var left, right := Edges(ws), Edges(vs)[r..] + Edges(vs)[..r];
    forall k | 0 <= k < n ensures left[k] == right[k] {
      if k < n - r {
        assert ws[k] == vs[r + k];
      } else {
        assert ws[k] == vs[k - (n - r)];
      }
    }
  }

  lemma Swap(a: seq<Edge>, b: seq<Edge>, p: Point, eps: real)
    ensures Odd(a + b, p, eps) == Odd(b + a, p, eps)
    ensures AnyFaulty(a + b, p, eps) == AnyFaulty(b + a, p, eps)
  {
    OddConcat(a, b, p, eps);
    OddConcat(b, a, p, eps);
    AnyFaultyConcat(a, b, p, eps);
    AnyFaultyConcat(b, a, p, eps);
  }

  /** It does not matter at which vertex a polygon is said to start. */
  lemma CyclicRotation(vs: seq<Point>, r: nat, p: Point, eps: real)
    requires r <= |vs|
    ensures Contains(vs[r..] + vs[..r], p, eps) == Contains(vs, p, eps)
  {
    hide Odd, AnyFaulty;
    var es := Edges(vs);
    EdgesRotated(vs, r);
    assert es[..r] + es[r..] == es;
    Swap(es[..r], es[r..], p, eps);
  }

  lemma {:induction false} NoneToggles(es: seq<Edge>, p: Point, eps: real)
    requires forall k :: 0 <= k < |es| ==> !Toggles(es[k], p, eps)
    ensures !Odd(es, p, eps)
  {
    if es != [] {
      NoneToggles(es[..|es| - 1], p, eps);
    }
  }

  /** Above or below all vertices, no point is inside and nothing is divided. */
  lemma OutsideTheHeight(vs: seq<Point>, p: Point, eps: real)
    requires (forall v :: v in vs ==> v.y > p.y) || (forall v :: v in vs ==> v.y <= p.y)
    ensures Contains(vs, p, eps) == Inside(false)
  {
    hide Meets, Odd;
    var es := Edges(vs);
    forall k | 0 <= k < |es| ensures !Straddles(es[k], p.y) {
      assert es[k].at in vs && es[k].prev in vs;
    }
    NoneToggles(es, p, eps);
  }

  /** Parity of the edges that straddle the line at y. */
  predicate OddStraddles(es: seq<Edge>, y: real) {
    es != [] && OddStraddles(es[..|es| - 1], y) != Straddles(es[|es| - 1], y)
  }

  /** Along a path, the line is straddled an odd number of times exactly when the
      path ends on the other side. */
  lemma {:induction false} PathStraddles(vs: seq<Point>, n: nat, y: real)
    requires 0 < n <= |vs|
    ensures OddStraddles(Edges(vs)[..n], y) <==> ((vs[n - 1].y > y) != (vs[|vs| - 1].y > y))
  {
    var es := Edges(vs);
    assert es[..n][..n - 1] == es[..n - 1];
    if n > 1 {
      PathStraddles(vs, n - 1, y);
    }
  }

  lemma {:induction false} AllStraddlersToggle(es: seq<Edge>, p: Point, eps: real)
    requires forall k :: 0 <= k < |es| ==> (Toggles(es[k], p, eps) <==> Straddles(es[k], p.y))
    ensures Odd(es, p, eps) <==> OddStraddles(es, p.y)
  {
    if es != [] {
      AllStraddlersToggle(es[..|es| - 1], p, eps);
    }
  }

  /** Left of every place where an edge meets the line a point is outside, for any
      polygon: a closed line is straddled an even number of times. */
  lemma OutsideToTheLeft(vs: seq<Point>, p: Point, eps: real)
    requires !AnyFaulty(Edges(vs), p, eps)
    requires forall k :: 0 <= k < |vs| && Straddles(Edges(vs)[k], p.y) ==> p.x < Meets(Edges(vs)[k], p.y, eps)
    ensures Contains(vs, p, eps) == Inside(false)
  {
    var es := Edges(vs);
    assert forall k :: 0 <= k < |es| ==> !Faulty(es[k], p, eps);
    AllStraddlersToggle(es, p, eps);
    if vs != [] {
      PathStraddles(vs, |vs|, p.y);
      assert es[..|vs|] == es;
    }
  }

  lemma OutsideToTheRight(vs: seq<Point>, p: Point, eps: real)
    requires !AnyFaulty(Edges(vs), p, eps)
    requires forall k :: 0 <= k < |vs| && Straddles(Edges(vs)[k], p.y) ==> p.x >= Meets(Edges(vs)[k], p.y, eps)
    ensures Contains(vs, p, eps) == Inside(false)
  {
    var es := Edges(vs);
    assert forall k :: 0 <= k < |es| ==> !Faulty(es[k], p, eps);
    NoneToggles(es, p, eps);
  }

  // ----- cutting a polygon along a diagonal

  function Reverse(e: Edge): (r: Edge) {
    Edge(e.prev, e.at)
  }

  /** Neither direction of a cut divides by zero, and both toggle alike. */
  predicate ReadsAlike(cut: Edge, p: Point, eps: real) {
    && !Faulty(cut, p, eps) && !Faulty(Reverse(cut), p, eps)
    && Toggles(cut, p, eps) == Toggles(Reverse(cut), p, eps)
  }

  /** The point is in the whole exactly when it is in one of the parts, cut from
      vertex 0 to vertex k, and not in the other. */
  predicate Partitions(vs: seq<Point>, k: nat, p: Point, eps: real)
    requires k < |vs|
  {
    var first := Contains(vs[..k + 1], p, eps);
    var second := Contains(vs[k..] + [vs[0]], p, eps);
    && first.Inside? && second.Inside?
    && Contains(vs, p, eps) == Inside(first.value != second.value)
  }

  /** For one point: a cut partitions it if and only if it reads alike there. */
  lemma CutAlongDiagonal(vs: seq<Point>, k: nat, p: Point, eps: real)
    requires k < |vs|
    requires !AnyFaulty(Edges(vs), p, eps)
    ensures Partitions(vs, k, p, eps) <==> ReadsAlike(Edge(vs[0], vs[k]), p, eps)
  {
    hide Odd, AnyFaulty, Toggles, Faulty, Edges;
    var es := Edges(vs);
    EdgesOfParts(vs, k);
    Parity(Edge(vs[0], vs[k]), Edge(vs[k], vs[0]), es[..1], es[1..k + 1], es[k + 1..], p, eps);
  }

  /** At the height of its first vertex a slanting edge, read in both directions,
      meets the line in two places, a multiple of the epsilon apart. */
  lemma MeetsApart(e: Edge, eps: real)
    requires Denominator(e, eps) != 0.0 && Denominator(Reverse(e), eps) != 0.0
    requires e.at.x != e.prev.x && eps != 0.0
    ensures Meets(e, e.at.y, eps) == e.at.x
    ensures Meets(Reverse(e), e.at.y, eps) != e.at.x
  {
    var d, g, h := Denominator(Reverse(e), eps), e.at.x - e.prev.x, e.at.y - e.prev.y;
    assert g * h / d * d == g * h;
    assert g * d == g * h + g * eps;
    assert g * eps != 0.0;
    assert (e.prev.x - e.at.x) * 0.0 == 0.0;
  }

  /** A point at the height of the lower end that a slanting edge reads differently. */
  lemma SlantingCutDisagrees(e: Edge, eps: real) returns (p: Point)
    requires eps != 0.0 && e.at.x != e.prev.x && e.at.y != e.prev.y
    ensures !ReadsAlike(e, p, eps)
  {
    hide Meets;
    var y := if e.at.y < e.prev.y then e.at.y else e.prev.y;
    if Denominator(e, eps) == 0.0 || Denominator(Reverse(e), eps) == 0.0 {
      return Point(0.0, y);
    }
    if e.at.y < e.prev.y {
      MeetsApart(e, eps);
    } else {
      MeetsApart(Reverse(e), eps);
    }
    var one, other := Meets(e, y, eps), Meets(Reverse(e), y, eps);
    p := Point(if one < other then one else other, y);
  }

  /** What a caller can check of a cut beforehand: it is level, or upright and not
      exactly epsilon high. */
  predicate LevelOrUpright(cut: Edge, eps: real) {
    || cut.at.y == cut.prev.y
    || (cut.at.x == cut.prev.x && Denominator(cut, eps) != 0.0 && Denominator(Reverse(cut), eps) != 0.0)
  }

  /** For all points: an edge reads alike everywhere if and only if it is level or
      upright. */
  lemma ReadsAlikeExactlyWhen(cut: Edge, eps: real)
    requires eps != 0.0
    ensures (forall p :: ReadsAlike(cut, p, eps)) <==> LevelOrUpright(cut, eps)
  {
    hide ReadsAlike;
    if LevelOrUpright(cut, eps) {
      forall p ensures ReadsAlike(cut, p, eps) {
        UprightCut(cut, p, eps);
      }
    } else if cut.at.x != cut.prev.x {
      var p := SlantingCutDisagrees(cut, eps);
    } else {
      UprightFault(cut, eps);
    }
  }

  lemma UprightFault(cut: Edge, eps: real)
    requires cut.at.y != cut.prev.y
    requires Denominator(cut, eps) == 0.0 || Denominator(Reverse(cut), eps) == 0.0
    ensures !ReadsAlike(cut, Point(0.0, if cut.at.y < cut.prev.y then cut.at.y else cut.prev.y), eps)
  {}

  /** The diagonal of the unit square is one of them. */
  lemma UnitDiagonalDisagrees()
    ensures exists p :: !ReadsAlike(Edge(Point(0.0, 0.0), Point(1.0, 1.0)), p, BACKEND_EPSILON)
  {
    var p := SlantingCutDisagrees(Edge(Point(0.0, 0.0), Point(1.0, 1.0)), BACKEND_EPSILON);
  }

  /** No edge of the polygon can divide by zero. */
  predicate Divisible(vs: seq<Point>, eps: real) {
    forall j :: 0 <= j < |vs| ==> Denominator(Edges(vs)[j], eps) != 0.0
  }

  /** Cutting a polygon partitions all its points if and only if the cut is level or
      upright and none of the edges can divide by zero. */
  lemma CutPartitionsExactlyWhen(vs: seq<Point>, k: nat, eps: real)
    requires k < |vs| && eps != 0.0
    ensures (forall p :: Partitions(vs, k, p, eps))
            <==> LevelOrUpright(Edge(vs[0], vs[k]), eps) && Divisible(vs, eps)
  {
    hide Partitions, ReadsAlike, LevelOrUpright;
    var cut := Edge(vs[0], vs[k]);
    if Divisible(vs, eps) {
      forall p ensures Partitions(vs, k, p, eps) <==> ReadsAlike(cut, p, eps) {
        CutAlongDiagonal(vs, k, p, eps);
      }
      ReadsAlikeExactlyWhen(cut, eps);
    } else {
      var j :| 0 <= j < |vs| && Denominator(Edges(vs)[j], eps) == 0.0;
      FaultyPolygon(vs, k, j, eps);
    }
  }

  lemma FaultyPolygon(vs: seq<Point>, k: nat, j: nat, eps: real)
    requires k < |vs| && j < |vs| && eps != 0.0 && Denominator(Edges(vs)[j], eps) == 0.0
    ensures exists p :: !Partitions(vs, k, p, eps)
  {
    var e := Edges(vs)[j];
    var p := Point(0.0, if e.at.y < e.prev.y then e.at.y else e.prev.y);
    assert Faulty(e, p, eps);
    assert Contains(vs, p, eps) == ZeroDivision;
    assert !Partitions(vs, k, p, eps);
  }

  lemma EdgesOfParts(vs: seq<Point>, k: nat)
    requires k < |vs|
    ensures var es := Edges(vs);
            es == es[..1] + es[1..k + 1] + es[k + 1..]
            && Edges(vs[..k + 1]) == [Edge(vs[0], vs[k])] + es[1..k + 1]
            && Edges(vs[k..] + [vs[0]]) == [Edge(vs[k], vs[0])] + es[k + 1..] + es[..1]
  {
    var es := Edges(vs);
    EdgesOfFirst(vs, k);
    EdgesOfSecond(vs, k);
  }

  lemma EdgesOfFirst(vs: seq<Point>, k: nat)
    requires k < |vs|
    ensures Edges(vs[..k + 1]) == [Edge(vs[0], vs[k])] + Edges(vs)[1..k + 1]
  {
  }

  lemma EdgesOfSecond(vs: seq<Point>, k: nat)
    requires k < |vs|
    ensures Edges(vs[k..] + [vs[0]]) == [Edge(vs[k], vs[0])] + Edges(vs)[k + 1..] + Edges(vs)[..1]
  {
    var n, ws := |vs|, vs[k..] + [vs[0]];
    var left, right := Edges(ws), [Edge(vs[k], vs[0])] + Edges(vs)[k + 1..] + Edges(vs)[..1];
    assert |left| == |right| == n - k + 1;
    forall i | 0 <= i < |left| ensures left[i] == right[i] {
      if 0 < i < n - k {
        assert right[i] == Edges(vs)[k + i];
      } else if i > 0 {
        assert right[i] == Edges(vs)[0];
      }
    }
  }

  /** The parities of two closed lines that share an edge, in opposite directions. */
  lemma Parity(there: Edge, back: Edge, a: seq<Edge>, m: seq<Edge>, b: seq<Edge>, p: Point, eps: real)
    ensures (Odd(a + m + b, p, eps) == (Odd([there] + m, p, eps) != Odd([back] + b + a, p, eps)))
            <==> Toggles(there, p, eps) == Toggles(back, p, eps)
    ensures AnyFaulty(a + m + b, p, eps) || Faulty(there, p, eps) || Faulty(back, p, eps)
            <==> AnyFaulty([there] + m, p, eps) || AnyFaulty([back] + b + a, p, eps)
  {
    hide Odd, AnyFaulty, Toggles, Faulty;
    One(there, p, eps);
    One(back, p, eps);
    OddConcat(a + m, b, p, eps);
    OddConcat(a, m, p, eps);
    OddConcat([there], m, p, eps);
    OddConcat([back] + b, a, p, eps);
    OddConcat([back], b, p, eps);
    AnyFaultyConcat(a + m, b, p, eps);
    AnyFaultyConcat(a, m, p, eps);
    AnyFaultyConcat([there], m, p, eps);
    AnyFaultyConcat([back] + b, a, p, eps);
    AnyFaultyConcat([back], b, p, eps);
  }

  lemma One(e: Edge, p: Point, eps: real)
    ensures Odd([e], p, eps) == Toggles(e, p, eps)
    ensures AnyFaulty([e], p, eps) == Faulty(e, p, eps)
  {
    hide Toggles, Faulty;
    assert [e][..0] == [] && [e][0] == e;
  }

  /** A vertical edge meets the line where it stands, in either direction. */
  lemma VerticalMeets(e: Edge, y: real, eps: real)
    requires Denominator(e, eps) != 0.0 && e.at.x == e.prev.x
    ensures Meets(e, y, eps) == e.at.x
  {
    var d := Denominator(e, eps);
    assert (e.prev.x - e.at.x) * (y - e.at.y) == 0.0;
    assert 0.0 / d == 0.0;
  }

  lemma UprightCut(cut: Edge, p: Point, eps: real)
    requires LevelOrUpright(cut, eps)
    ensures ReadsAlike(cut, p, eps)
  {
    hide Meets;
    if Straddles(cut, p.y) {
      VerticalMeets(cut, p.y, eps);
      VerticalMeets(Reverse(cut), p.y, eps);
    }
  }

  // ----- rectangles

  datatype Box = Box(x0: real, y0: real, x1: real, y1: real)

  predicate Proper(b: Box) {
    b.x0 < b.x1 && b.y0 < b.y1
  }

  function Corners(b: Box): (r: seq<Point>) {
    [Point(b.x0, b.y0), Point(b.x1, b.y0), Point(b.x1, b.y1), Point(b.x0, b.y1)]
  }

  /** The other way round. */
  function CornersBack(b: Box): (r: seq<Point>) {
    [Point(b.x0, b.y0), Point(b.x0, b.y1), Point(b.x1, b.y1), Point(b.x1, b.y0)]
  }

  /** Left and bottom sides belong to the box, right and top sides do not. */
  predicate InBox(b: Box, p: Point) {
    b.x0 <= p.x < b.x1 && b.y0 <= p.y < b.y1
  }

  lemma FourEdges(es: seq<Edge>, p: Point, eps: real)
    requires |es| == 4
    ensures Odd(es, p, eps)
            <==> ((Toggles(es[0], p, eps) != Toggles(es[1], p, eps))
                  != (Toggles(es[2], p, eps) != Toggles(es[3], p, eps)))
    ensures AnyFaulty(es, p, eps)
            <==> Faulty(es[0], p, eps) || Faulty(es[1], p, eps) || Faulty(es[2], p, eps) || Faulty(es[3], p, eps)
  {
    hide Toggles, Faulty;
    assert es == ([es[0]] + [es[1]]) + ([es[2]] + [es[3]]);
    OddConcat([es[0]] + [es[1]], [es[2]] + [es[3]], p, eps);
    OddConcat([es[0]], [es[1]], p, eps);
    OddConcat([es[2]], [es[3]], p, eps);
    One(es[0], p, eps);
    One(es[1], p, eps);
    One(es[2], p, eps);
    One(es[3], p, eps);
  }

  /** One upright side, in either direction. */
  lemma Side(e: Edge, p: Point, eps: real)
    requires e.at.x == e.prev.x
    ensures Toggles(e, p, eps) <==> Straddles(e, p.y) && Denominator(e, eps) != 0.0 && p.x < e.at.x
  {
    hide Meets;
    if Denominator(e, eps) != 0.0 {
      VerticalMeets(e, p.y, eps);
    }
  }

  /** A rectangle is its half-open box, whichever way round its corners are listed.
      The one exception: a rectangle exactly epsilon high divides by zero at every
      height inside it. */
  lemma RectangleIsHalfOpenBox(b: Box, p: Point, eps: real)
    requires Proper(b) && eps > 0.0
    ensures var answer := if b.y1 - b.y0 == eps && b.y0 <= p.y < b.y1 then ZeroDivision else Inside(InBox(b, p));
            Contains(Corners(b), p, eps) == answer && Contains(CornersBack(b), p, eps) == answer
  {
    hide Odd, AnyFaulty, Toggles, Meets;
    var es, fs := Edges(Corners(b)), Edges(CornersBack(b));
    FourEdges(es, p, eps);
    FourEdges(fs, p, eps);
    Side(es[0], p, eps);
    Side(es[2], p, eps);
    Side(fs[1], p, eps);
    Side(fs[3], p, eps);
    Level(es[1], p, eps);
    Level(es[3], p, eps);
    Level(fs[0], p, eps);
    Level(fs[2], p, eps);
  }

  lemma Level(e: Edge, p: Point, eps: real)
    requires e.at.y == e.prev.y
    ensures !Toggles(e, p, eps) && !Faulty(e, p, eps)
  {
    hide Meets;
  }

  predicate Holds(a: Answer) {
    a.Inside? && a.value
  }

  /** Two rectangles share a point exactly when their boxes overlap by more than a
      side, so neighbours never do. */
  lemma RectanglesShareAPoint(b: Box, c: Box, eps: real)
    requires Proper(b) && Proper(c) && eps > 0.0
    requires b.y1 - b.y0 != eps && c.y1 - c.y0 != eps
    ensures (exists p :: Holds(Contains(Corners(b), p, eps)) && Holds(Contains(Corners(c), p, eps)))
            <==> b.x0 < c.x1 && c.x0 < b.x1 && b.y0 < c.y1 && c.y0 < b.y1
  {
    hide Contains, Corners;
    var low := Point(if b.x0 < c.x0 then c.x0 else b.x0, if b.y0 < c.y0 then c.y0 else b.y0);
    RectangleIsHalfOpenBox(b, low, eps);
    RectangleIsHalfOpenBox(c, low, eps);
    forall p ensures Holds(Contains(Corners(b), p, eps)) ==> InBox(b, p) {
      RectangleIsHalfOpenBox(b, p, eps);
    }
    forall p ensures Holds(Contains(Corners(c), p, eps)) ==> InBox(c, p) {
      RectangleIsHalfOpenBox(c, p, eps);
    }
  }

  // ----- the zones of a camera

  datatype Zone = Zone(id: string, vertices: seq<Point>, active: bool)

  datatype Found = Zones(zones: seq<Zone>) | Raised

  predicate Hit(z: Zone, p: Point) {
    z.active && Holds(Contains(z.vertices, p, BACKEND_EPSILON))
  }

  predicate Breaks(z: Zone, p: Point) {
    z.active && Contains(z.vertices, p, BACKEND_EPSILON).ZeroDivision?
  }

  function Hits(zones: seq<Zone>, p: Point): (r: seq<Zone>) {
    if zones == [] then []
    else
      var z := zones[|zones| - 1];
      Hits(zones[..|zones| - 1], p) + if Hit(z, p) then [z] else []
  }

  /** One active zone that divides by zero loses the answer for all of them;
      otherwise the zones found are exactly the active ones that contain the
      point, in the order they were loaded. */
  lemma {:induction false} HitsInOrder(zones: seq<Zone>, p: Point)
    ensures PartWhere(Hits(zones, p), zones,
                      set i: nat | i < |zones| && zones[i].active
                                   && Contains(zones[i].vertices, p, BACKEND_EPSILON) == Inside(true))
  {
    hide Contains, PartWhere;
    var all := set i: nat | i < |zones| && zones[i].active
                            && Contains(zones[i].vertices, p, BACKEND_EPSILON) == Inside(true);
    if zones == [] {
      NothingWhere<Zone>(all);
    } else {
      var n := |zones| - 1;
      HitsInOrder(zones[..n], p);
      var before := set i: nat | i < |zones[..n]| && zones[..n][i].active
                                 && Contains(zones[..n][i].vertices, p, BACKEND_EPSILON) == Inside(true);
      PartWhereSnoc(Hits(zones[..n], p), zones, before, all);
      assert n in all <==> Hit(zones[n], p);
    }
  }

  /** Each zone found appears as often as it is loaded. */
  lemma {:induction false} HitsAreExact(zones: seq<Zone>, p: Point, z: Zone)
    ensures multiset(Hits(zones, p))[z]
            == if z.active && Contains(z.vertices, p, BACKEND_EPSILON) == Inside(true) then multiset(zones)[z] else 0
  {
    hide Contains;
    if zones != [] {
      var n := |zones| - 1;
      HitsAreExact(zones[..n], p, z);
      assert zones == zones[..n] + [zones[n]];
    }
  }

  class ZoneManager {
    var zones: map<string, seq<Zone>>

    constructor ()
      ensures zones == map[]
    {
      zones := map[];
    }

    method AddZone(camera: string, z: Zone)
      modifies this
      ensures zones == old(zones)[camera := (if camera in old(zones) then old(zones[camera]) else []) + [z]]
    {
      if camera !in zones {
        zones := zones[camera := []];
      }
      zones := zones[camera := zones[camera] + [z]];
    }

    method RemoveZone(camera: string, id: string) returns (removed: bool)
      modifies this
      ensures zones.Keys == old(zones).Keys + {camera}
      ensures forall c :: c in zones && c != camera ==> zones[c] == old(zones[c])
      ensures var was := if camera in old(zones) then old(zones[camera]) else [];
              zones[camera] == Without(was, id)
              && (removed <==> exists k :: 0 <= k < |was| && was[k].id == id)
    {
      var was := if camera in zones then zones[camera] else [];
      var kept: seq<Zone> := [];
      for i := 0 to |was|
        invariant kept == Without(was[..i], id)
        invariant zones == old(zones)
      {
        assert was[..i + 1][..i] == was[..i];
        if was[i].id != id {
          kept := kept + [was[i]];
        }
      }
      assert was[..|was|] == was;
      WithoutShrinks(was, id);
      zones := zones[camera := kept];
      removed := |kept| < |was|;
    }

    method GetZonesForPoint(camera: string, p: Point) returns (r: Found)
      ensures var loaded := if camera in zones then zones[camera] else [];
              if exists k :: 0 <= k < |loaded| && loaded[k].active
                             && Contains(loaded[k].vertices, p, BACKEND_EPSILON) == ZeroDivision then r == Raised
              else r == Zones(Hits(loaded, p))
    {
      hide Contains;
      var loaded := if camera in zones then zones[camera] else [];
      var hits: seq<Zone> := [];
      for i := 0 to |loaded|
        invariant hits == Hits(loaded[..i], p)
        invariant forall k :: 0 <= k < i ==> !Breaks(loaded[k], p)
      {
        assert loaded[..i + 1][..i] == loaded[..i];
        if loaded[i].active {
          var a := ContainsPoint(loaded[i].vertices, p, BACKEND_EPSILON);
          if a.ZeroDivision? {
            assert Breaks(loaded[i], p);
            return Raised;
          }
          if a.value {
            hits := hits + [loaded[i]];
          }
        }
      }
      assert loaded[..|loaded|] == loaded;
      return Zones(hits);
    }
  }

  function Without(zones: seq<Zone>, id: string): (r: seq<Zone>) {
    if zones == [] then []
    else
      var z := zones[|zones| - 1];
      Without(zones[..|zones| - 1], id) + if z.id != id then [z] else []
  }

  /** Removing a zone leaves those with another id, in order. */
  lemma {:induction false} WithoutExactly(zones: seq<Zone>, id: string)
    ensures PartWhere(Without(zones, id), zones, set i: nat | i < |zones| && zones[i].id != id)
  {
    hide PartWhere;
    var all := set i: nat | i < |zones| && zones[i].id != id;
    if zones == [] {
      NothingWhere<Zone>(all);
    } else {
      var init := zones[..|zones| - 1];
      WithoutExactly(init, id);
      var wanted := set i: nat | i < |init| && init[i].id != id;
      PartWhereSnoc(Without(init, id), zones, wanted, all);
    }
  }

  lemma {:induction false} WithoutShrinks(zones: seq<Zone>, id: string)
    ensures |Without(zones, id)| <= |zones|
    ensures |Without(zones, id)| < |zones| <==> exists k :: 0 <= k < |zones| && zones[k].id == id
    ensures forall k :: 0 <= k < |Without(zones, id)| ==> Without(zones, id)[k].id != id
  {
    if zones != [] {
      var n := |zones| - 1;
      WithoutShrinks(zones[..n], id);
      assert forall k :: 0 <= k < n ==> zones[..n][k] == zones[k];
    }
  }
}
