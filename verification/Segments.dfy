/** The crossing test for a zone drawn as a line (services/cv-
    pipeline/zone_manager.py), over the reals. */
module Segments {
  import opened RayCasting

  /** The cross product of a - o and b - o. */
  function Cross(o: Point, a: Point, b: Point): (r: real) {
    (a.x - o.x) * (b.y - o.y) - (a.y - o.y) * (b.x - o.x)
  }

  predicate Opposite(a: real, b: real) {
    (a > 0.0 && b < 0.0) || (a < 0.0 && b > 0.0)
  }

  predicate CrossedLine(prev: Point, curr: Point, line: seq<Point>) {
    |line| >= 2
    && Opposite(Cross(line[0], line[1], prev), Cross(line[0], line[1], curr))
    && Opposite(Cross(prev, curr, line[0]), Cross(prev, curr, line[1]))
  }

  /** The point a fraction `t` of the way from `a` to `b`. */
  function Along(a: Point, b: Point, t: real): (r: Point) {
    Point(a.x + t * (b.x - a.x), a.y + t * (b.y - a.y))
  }

  predicate Between(t: real) {
    0.0 < t < 1.0
  }

  /** The directions of the two segments, as a determinant; 0 for parallel ones. */
  function Turn(prev: Point, curr: Point, p1: Point, p2: Point): (r: real) {
    (p2.x - p1.x) * (curr.y - prev.y) - (p2.y - p1.y) * (curr.x - prev.x)
  }

  /** The four cross products from two of them. */
  lemma Differences(prev: Point, curr: Point, p1: Point, p2: Point)
    ensures Cross(p1, p2, curr) - Cross(p1, p2, prev) == Turn(prev, curr, p1, p2)
    ensures Cross(prev, curr, p1) - Cross(prev, curr, p2) == Turn(prev, curr, p1, p2)
  {
  }

  /** For w + s r == t q (vectors), q x w and w x r in terms of D = q x r. */
  lemma MeetingProducts(wx: real, wy: real, rx: real, ry: real, qx: real, qy: real, s: real, t: real)
    requires wx + s * rx == t * qx && wy + s * ry == t * qy
    ensures qx * wy - qy * wx == -s * (qx * ry - qy * rx)
    ensures wx * ry - wy * rx == t * (qx * ry - qy * rx)
  {
    assert qx * wy - qy * wx == qx * (t * qy - s * ry) - qy * (t * qx - s * rx);
    assert wx * ry - wy * rx == (t * qx - s * rx) * ry - (t * qy - s * ry) * rx;
  }

  lemma MeetsImpliesCrossed(prev: Point, curr: Point, line: seq<Point>, s: real, t: real)
    requires |line| >= 2 && Between(s) && Between(t)
    requires Turn(prev, curr, line[0], line[1]) != 0.0
    requires Along(prev, curr, s) == Along(line[0], line[1], t)
    ensures CrossedLine(prev, curr, line)
  {
    var p1, p2 := line[0], line[1];
    var d := Turn(prev, curr, p1, p2);
    MeetingProducts(prev.x - p1.x, prev.y - p1.y, curr.x - prev.x, curr.y - prev.y, p2.x - p1.x, p2.y - p1.y, s, t);
    Differences(prev, curr, p1, p2);
    var d1, d2 := Cross(p1, p2, prev), Cross(p1, p2, curr);
    var d3, d4 := Cross(prev, curr, p1), Cross(prev, curr, p2);
    assert d1 == -s * d;
    assert d2 == (1.0 - s) * d;
    assert d3 == t * d;
    assert d4 == (t - 1.0) * d;
    Signs(s, d);
    Signs(t, d);
  }

  lemma Signs(t: real, d: real)
    requires Between(t) && d != 0.0
    ensures Opposite(-t * d, (1.0 - t) * d) && Opposite(t * d, (t - 1.0) * d)
  {
    if d > 0.0 {
      assert t * d > 0.0 && (1.0 - t) * d > 0.0;
    } else {
      assert t * -d > 0.0 && (1.0 - t) * -d > 0.0;
    }
  }

  lemma Fraction(a: real, b: real)
    requires Opposite(a, b)
    ensures Between(a / (a - b)) && (a / (a - b)) * (a - b) == a
  {
  }

  /** If n == f * d for each coordinate, the identity w D - (q x w) r == (w x r) q
      gives the meeting point. */
  lemma Meeting(wx: real, wy: real, rx: real, ry: real, qx: real, qy: real, s: real, t: real)
    requires qx * ry - qy * rx != 0.0
    requires qx * wy - qy * wx == -s * (qx * ry - qy * rx)
    requires wx * ry - wy * rx == t * (qx * ry - qy * rx)
    ensures wx + s * rx == t * qx && wy + s * ry == t * qy
  {
    var d := qx * ry - qy * rx;
    assert (wx + s * rx - t * qx) * d == wx * d - (qx * wy - qy * wx) * rx - (wx * ry - wy * rx) * qx;
    assert wx * d - (qx * wy - qy * wx) * rx - (wx * ry - wy * rx) * qx == 0.0;
    assert (wy + s * ry - t * qy) * d == wy * d - (qx * wy - qy * wx) * ry - (wx * ry - wy * rx) * qy;
    assert wy * d - (qx * wy - qy * wx) * ry - (wx * ry - wy * rx) * qy == 0.0;
  }

  lemma CrossedImpliesMeets(prev: Point, curr: Point, line: seq<Point>) returns (s: real, t: real)
    requires CrossedLine(prev, curr, line)
    ensures Between(s) && Between(t) && Along(prev, curr, s) == Along(line[0], line[1], t)
    ensures Turn(prev, curr, line[0], line[1]) != 0.0
  {
    hide Cross, Turn, Along;
    var p1, p2 := line[0], line[1];
    var d := Turn(prev, curr, p1, p2);
    Differences(prev, curr, p1, p2);
    s := PartOf(Cross(p1, p2, prev), Cross(p1, p2, curr), -d);
    t := PartOf(Cross(prev, curr, p1), Cross(prev, curr, p2), d);
    MeetingPoint(prev, curr, p1, p2, s, t);
  }

  lemma MeetingPoint(prev: Point, curr: Point, p1: Point, p2: Point, s: real, t: real)
    requires Turn(prev, curr, p1, p2) != 0.0
    requires Cross(p1, p2, prev) == s * -Turn(prev, curr, p1, p2)
    requires Cross(prev, curr, p1) == t * Turn(prev, curr, p1, p2)
    ensures Along(prev, curr, s) == Along(p1, p2, t)
  {
    hide Cross, Turn, Along;
    Products(prev, curr, p1, p2);
    MeetingIn(prev.x - p1.x, prev.y - p1.y, curr.x - prev.x, curr.y - prev.y, p2.x - p1.x, p2.y - p1.y, s, t,
      Cross(p1, p2, prev), Cross(prev, curr, p1), Turn(prev, curr, p1, p2));
    SamePoint(prev, curr, p1, p2, s, t);
  }

  lemma MeetingIn(wx: real, wy: real, rx: real, ry: real, qx: real, qy: real, s: real, t: real,
                  d1: real, d3: real, d: real)
    requires d == qx * ry - qy * rx && d != 0.0
    requires d1 == qx * wy - qy * wx && d1 == s * -d
    requires d3 == wx * ry - wy * rx && d3 == t * d
    ensures wx + s * rx == t * qx && wy + s * ry == t * qy
  {
    Meeting(wx, wy, rx, ry, qx, qy, s, t);
  }

  lemma SamePoint(prev: Point, curr: Point, p1: Point, p2: Point, s: real, t: real)
    requires prev.x - p1.x + s * (curr.x - prev.x) == t * (p2.x - p1.x)
    requires prev.y - p1.y + s * (curr.y - prev.y) == t * (p2.y - p1.y)
    ensures Along(prev, curr, s) == Along(p1, p2, t)
  {
    var sx, sy, tx, ty := s * (curr.x - prev.x), s * (curr.y - prev.y), t * (p2.x - p1.x), t * (p2.y - p1.y);
    assert Along(prev, curr, s) == Point(prev.x + sx, prev.y + sy);
    assert Along(p1, p2, t) == Point(p1.x + tx, p1.y + ty);
    assert prev.x + sx == p1.x + tx && prev.y + sy == p1.y + ty;
  }

  /** Which part of their distance the first of two opposite numbers is. */
  lemma PartOf(a: real, b: real, distance: real) returns (part: real)
    requires Opposite(a, b) && a - b == distance
    ensures Between(part) && a == part * distance && distance != 0.0
  {
    part := a / (a - b);
    Fraction(a, b);
  }

  /** The products of the differences that `Meeting` speaks of. */
  lemma Products(prev: Point, curr: Point, p1: Point, p2: Point)
    ensures Cross(p1, p2, prev) == (p2.x - p1.x) * (prev.y - p1.y) - (p2.y - p1.y) * (prev.x - p1.x)
    ensures Cross(prev, curr, p1) == (prev.x - p1.x) * (curr.y - prev.y) - (prev.y - p1.y) * (curr.x - prev.x)
    ensures Turn(prev, curr, p1, p2) == (p2.x - p1.x) * (curr.y - prev.y) - (p2.y - p1.y) * (curr.x - prev.x)
  {}

  /** The test holds exactly when the step and the line meet in a single point that
      is an end of neither. */
  lemma CrossedExactlyWhen(prev: Point, curr: Point, line: seq<Point>)
    requires |line| >= 2
    ensures CrossedLine(prev, curr, line)
            <==> Turn(prev, curr, line[0], line[1]) != 0.0
                 && exists s, t :: Between(s) && Between(t) && Along(prev, curr, s) == Along(line[0], line[1], t)
  {
    hide CrossedLine, Turn, Along;
    if CrossedLine(prev, curr, line) {
      var s, t := CrossedImpliesMeets(prev, curr, line);
    }
    if Turn(prev, curr, line[0], line[1]) != 0.0
       && exists s, t :: Between(s) && Between(t) && Along(prev, curr, s) == Along(line[0], line[1], t) {
      var s, t :| Between(s) && Between(t) && Along(prev, curr, s) == Along(line[0], line[1], t);
      MeetsImpliesCrossed(prev, curr, line, s, t);
    }
  }
}
