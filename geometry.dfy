/** Points of the plane and the small numeric helpers both hull pipelines share. */
module Geometry {

  /** A point; both pipelines compare points by their two coordinates. */
  datatype Point = Point(x: real, y: real)

  /** `flipval`: the reflection of a point through the origin. */
  function Flip(p: Point): Point {
    Point(-p.x, -p.y)
  }

  /** `flipped`: `flipval` applied to every point, in order. */
  function FlipAll(ps: seq<Point>): (r: seq<Point>)
    ensures |r| == |ps|
  {
    seq(|ps|, i requires 0 <= i < |ps| => Flip(ps[i]))
  }

  /** The payload a trace record carries: reflected back when the pass runs on reflected points. */
  function Show(flp: bool, p: Point): Point {
    if flp then Flip(p) else p
  }

  lemma FlipInvolution(p: Point)
    ensures Flip(Flip(p)) == p
  {
  }

  lemma {:induction false} FlipAllInvolution(ps: seq<Point>)
    ensures FlipAll(FlipAll(ps)) == ps
  {
    var r := FlipAll(FlipAll(ps));
    assert |r| == |ps|;
    forall i | 0 <= i < |ps|
      ensures r[i] == ps[i]
    {
      FlipInvolution(ps[i]);
    }
  }

  /** `flipped` negates both coordinates of every element, so membership moves with the reflection. */
  lemma FlipAllMembership(ps: seq<Point>, p: Point)
    ensures p in FlipAll(ps) <==> Flip(p) in ps
  {
    if p in FlipAll(ps) {
      var i :| 0 <= i < |ps| && FlipAll(ps)[i] == p;
      FlipInvolution(ps[i]);
    }
    if Flip(p) in ps {
      var i :| 0 <= i < |ps| && ps[i] == Flip(p);
      FlipInvolution(p);
      assert FlipAll(ps)[i] == p;
    }
  }

  /** The comparator of `quickselect` and of the pair sort: negative exactly when `a` comes first. */
  predicate LexLess(a: Point, b: Point) {
    a.x < b.x || (a.x == b.x && a.y < b.y)
  }

  predicate LexLeq(a: Point, b: Point) {
    a.x < b.x || (a.x == b.x && a.y <= b.y)
  }

  /** The y-intercept `y - slope * x` of the line of slope `slope` through `p`. */
  function Intercept(p: Point, slope: real): real {
    p.y - slope * p.x
  }

  /** Slope of the segment between two points with different x. */
  function Slope(a: Point, b: Point): real
    requires a.x != b.x
  {
    (a.y - b.y) / (a.x - b.x)
  }

  /** `integerDivision`: `Math.floor(dividend / divisor)`. */
  function IntegerDivision(dividend: int, divisor: int): (q: int)
    requires divisor != 0
    ensures divisor > 0 ==> q * divisor <= dividend < q * divisor + divisor
    ensures divisor < 0 ==> q * divisor >= dividend > q * divisor + divisor
  {
    if divisor > 0 then dividend / divisor else (-dividend) / (-divisor)
  }
}
