/** Where slanting edges lie, without dividing, and the polygons that have them. */
module Slants {
  import opened RayCasting

  /** The point is left of an edge at its height: the division multiplied out. */
  predicate LeftOf(e: Edge, p: Point, eps: real) {
    var d := e.prev.y - e.at.y + eps;
    if d > 0.0 then (p.x - e.at.x) * d < (e.prev.x - e.at.x) * (p.y - e.at.y)
    else (p.x - e.at.x) * d > (e.prev.x - e.at.x) * (p.y - e.at.y)
  }

  lemma Quotient(n: real, d: real, x: real)
    requires d != 0.0
    ensures d > 0.0 ==> (x < n / d <==> x * d < n)
    ensures d < 0.0 ==> (x < n / d <==> x * d > n)
  {
    var q := n / d;
    assert q * d == n;
    assert (q - x) * d == n - x * d;
    Sign(q - x, d);
  }

  lemma Sign(a: real, d: real)
    requires d != 0.0
    ensures d > 0.0 ==> (a > 0.0 <==> a * d > 0.0)
    ensures d < 0.0 ==> (a > 0.0 <==> a * d < 0.0)
  {}

  /** An edge toggles the answer for a point exactly when its ends are on
      different sides of the point's height and the point is left of it. */
  lemma TogglesExactlyWhen(e: Edge, p: Point, eps: real)
    requires e.prev.y - e.at.y + eps != 0.0
    ensures Toggles(e, p, eps) <==> ((e.at.y > p.y) != (e.prev.y > p.y)) && LeftOf(e, p, eps)
  {
    Quotient((e.prev.x - e.at.x) * (p.y - e.at.y), e.prev.y - e.at.y + eps, p.x - e.at.x);
  }

  /** Parity of the edges that are right of a point at its height. */
  predicate OddlyLeft(vs: seq<Point>, n: nat, p: Point, eps: real)
    requires n <= |vs|
  {
    n > 0
    && var e := Edge(vs[n - 1], vs[if n == 1 then |vs| - 1 else n - 2]);
       OddlyLeft(vs, n - 1, p, eps) != (((e.at.y > p.y) != (e.prev.y > p.y)) && LeftOf(e, p, eps))
  }

  lemma {:induction false} OddExactly(vs: seq<Point>, n: nat, p: Point, eps: real)
    requires n <= |vs| && Divisible(vs, eps)
    ensures Odd(Edges(vs)[..n], p, eps) <==> OddlyLeft(vs, n, p, eps)
  {
    hide Toggles, LeftOf;
    var es := Edges(vs);
    if n > 0 {
      OddExactly(vs, n - 1, p, eps);
      assert es[..n][..n - 1] == es[..n - 1];
      assert Denominator(es[n - 1], eps) != 0.0;
      TogglesExactlyWhen(es[n - 1], p, eps);
    }
  }

  /** The answer for any polygon none of whose edges can divide by zero, without
      a division: whether the point is left of an odd number of the edges that
      reach across its height. */
  lemma ContainsExactlyWhen(vs: seq<Point>, p: Point, eps: real)
    requires Divisible(vs, eps)
    ensures Contains(vs, p, eps) == Inside(OddlyLeft(vs, |vs|, p, eps))
  {
    hide Odd, OddlyLeft;
    OddExactly(vs, |vs|, p, eps);
    var es := Edges(vs);
    assert es[..|vs|] == es;
    assert forall k :: 0 <= k < |es| ==> !Faulty(es[k], p, eps);
  }

  // ----- right triangles

  /** The triangle with legs w and h, listed along the lower leg first. */
  function Triangle(x0: real, y0: real, w: real, h: real): (r: seq<Point>) {
    [Point(x0, y0), Point(x0 + w, y0), Point(x0, y0 + h)]
  }

  /** The same, listed along the left leg first. */
  function TriangleBack(x0: real, y0: real, w: real, h: real): (r: seq<Point>) {
    [Point(x0, y0), Point(x0, y0 + h), Point(x0 + w, y0)]
  }

  lemma ThreeEdges(vs: seq<Point>, p: Point, eps: real)
    requires |vs| == 3 && Divisible(vs, eps)
    ensures var es := Edges(vs);
            Contains(vs, p, eps)
            == Inside((Toggles(es[0], p, eps) != Toggles(es[1], p, eps)) != Toggles(es[2], p, eps))
  {
    hide Toggles;
    var es := Edges(vs);
    assert forall k :: 0 <= k < |es| ==> !Faulty(es[k], p, eps);
    assert es == [es[0]] + [es[1]] + [es[2]];
    OddConcat([es[0]] + [es[1]], [es[2]], p, eps);
    OddConcat([es[0]], [es[1]], p, eps);
    One(es[0], p, eps);
    One(es[1], p, eps);
    One(es[2], p, eps);
  }

  lemma Positive(a: real, b: real)
    requires b > 0.0
    ensures a > 0.0 <==> a * b > 0.0
    ensures a >= 0.0 <==> a * b >= 0.0
  {}

  /** A right triangle is what lies right of its left leg, above its lower leg,
      and left of the hypotenuse, which the epsilon moves outwards a little. */
  lemma TriangleExactly(x0: real, y0: real, w: real, h: real, p: Point, eps: real)
    requires w > 0.0 && h > eps > 0.0
    ensures Contains(Triangle(x0, y0, w, h), p, eps) ==
            Inside(x0 <= p.x && y0 <= p.y < y0 + h && (p.x - x0) * (h - eps) < w * (y0 + h - p.y))
  {
    hide Toggles, LeftOf, Contains, Meets;
    var vs := Triangle(x0, y0, w, h);
    var es := Edges(vs);
    assert Divisible(vs, eps);
    ThreeEdges(vs, p, eps);
    Side(es[0], p, eps);
    Level(es[1], p, eps);
    TogglesExactlyWhen(es[2], p, eps);
    assert LeftOf(es[2], p, eps) <==> (p.x - x0) * (h - eps) < w * (y0 + h - p.y) by {
      Hypotenuse(x0, y0, w, h, p, eps);
    }
    Positive(x0 - p.x, h - eps);
    Positive(y0 + h - p.y, w);
    assert (x0 - p.x) * (h - eps) == -((p.x - x0) * (h - eps));
  }

  lemma Hypotenuse(x0: real, y0: real, w: real, h: real, p: Point, eps: real)
    requires h > eps
    ensures var e := Edge(Point(x0, y0 + h), Point(x0 + w, y0));
            LeftOf(e, p, eps) <==> (p.x - x0) * (h - eps) < w * (y0 + h - p.y)
  {
    assert (p.x - x0) * (y0 - (y0 + h) + eps) == -((p.x - x0) * (h - eps));
    assert w * (p.y - (y0 + h)) == -(w * (y0 + h - p.y));
  }

  /** Listed the other way round the hypotenuse is moved inwards instead. */
  lemma TriangleBackExactly(x0: real, y0: real, w: real, h: real, p: Point, eps: real)
    requires w > 0.0 && h > eps > 0.0
    ensures Contains(TriangleBack(x0, y0, w, h), p, eps) ==
            Inside(x0 <= p.x && y0 <= p.y < y0 + h && (p.x - x0) * (h + eps) < w * (y0 + h + eps - p.y))
  {
    hide Toggles, LeftOf, Contains, Meets;
    var vs := TriangleBack(x0, y0, w, h);
    var es := Edges(vs);
    assert Divisible(vs, eps);
    ThreeEdges(vs, p, eps);
    Level(es[0], p, eps);
    Side(es[1], p, eps);
    TogglesExactlyWhen(es[2], p, eps);
    assert LeftOf(es[2], p, eps) <==> (p.x - x0) * (h + eps) < w * (y0 + h + eps - p.y) by {
      HypotenuseBack(x0, y0, w, h, p, eps);
    }
    assert Toggles(es[1], p, eps) <==> y0 <= p.y < y0 + h && p.x < x0;
    assert Toggles(es[2], p, eps) <==> y0 <= p.y < y0 + h && LeftOf(es[2], p, eps);
    Positive(x0 - p.x, h + eps);
    Positive(y0 + h + eps - p.y, w);
    assert w * (y0 + h + eps - p.y) == (y0 + h + eps - p.y) * w;
    assert p.x < x0 && p.y < y0 + h ==> (p.x - x0) * (h + eps) < 0.0 < w * (y0 + h + eps - p.y);
    assert (x0 - p.x) * (h + eps) == -((p.x - x0) * (h + eps));
  }

  lemma HypotenuseBack(x0: real, y0: real, w: real, h: real, p: Point, eps: real)
    requires h > eps > 0.0
    ensures var e := Edge(Point(x0 + w, y0), Point(x0, y0 + h));
            LeftOf(e, p, eps) <==> (p.x - x0) * (h + eps) < w * (y0 + h + eps - p.y)
  {
    assert (p.x - (x0 + w)) * (y0 + h - y0 + eps) == (p.x - x0) * (h + eps) - w * (h + eps);
    assert (x0 - (x0 + w)) * (p.y - y0) == w * (h + eps) * 0.0 - w * (p.y - y0);
    assert w * (y0 + h + eps - p.y) == w * (h + eps) - w * (p.y - y0);
  }

  /** The heights at which a rectangle cannot be tested, in numbers. */
  lemma FaultyHeights(x: real)
    ensures Contains(Corners(Box(0.0, 0.0, 1.0, 0.000000000001)), Point(x, 0.0), BACKEND_EPSILON) == ZeroDivision
    ensures Contains(Corners(Box(0.0, 0.0, 1.0, 0.000000001)), Point(x, 0.0), PIPELINE_EPSILON) == ZeroDivision
  {
    hide Contains, Corners;
    RectangleIsHalfOpenBox(Box(0.0, 0.0, 1.0, 0.000000000001), Point(x, 0.0), BACKEND_EPSILON);
    RectangleIsHalfOpenBox(Box(0.0, 0.0, 1.0, 0.000000001), Point(x, 0.0), PIPELINE_EPSILON);
  }
}
