/**
 * The Kirkpatrick–Seidel hull above the bridges: `connect`, which splits the points at the median
 * x and recurses on both sides of the bridge, `getUpperHull`, which picks the two extreme points
 * and discards what lies below the chord between them, and `convexHull`, which runs the upper pass
 * on the points and on their reflection and joins the two chains.
 */
module UpperHull {
  import opened Geometry
  import opened OrderedSet
  import opened Outcomes
  import opened Sorting
  import opened KpsTrace
  import opened Bridge

  /** The points of `s` left of `x`, in order. */
  function LeftOf(s: seq<Point>, x: real): (r: seq<Point>)
    ensures |r| <= |s|
    ensures forall t :: t in r <==> t in s && t.x < x
  {
    if s == [] then []
    else
      var init := LeftOf(s[..|s| - 1], x);
      assert s == s[..|s| - 1] + [s[|s| - 1]];
      if s[|s| - 1].x < x then init + [s[|s| - 1]] else init
  }

  /** The points of `s` right of `x`, in order. */
  function RightOf(s: seq<Point>, x: real): (r: seq<Point>)
    ensures |r| <= |s|
    ensures forall t :: t in r <==> t in s && t.x > x
  {
    if s == [] then []
    else
      var init := RightOf(s[..|s| - 1], x);
      assert s == s[..|s| - 1] + [s[|s| - 1]];
      if s[|s| - 1].x > x then init + [s[|s| - 1]] else init
  }

  /** The points of `s` that are not in `keep`, in order. */
  function Outside(s: seq<Point>, keep: seq<Point>): (r: seq<Point>)
    ensures |r| <= |s|
  {
    if s == [] then []
    else
      var init := Outside(s[..|s| - 1], keep);
      assert s == s[..|s| - 1] + [s[|s| - 1]];
      if s[|s| - 1] !in keep then init + [s[|s| - 1]] else init
  }

  /** `Outside` keeps exactly the points of `s` missing from `keep`. */
  lemma {:induction false} OutsideMembers(s: seq<Point>, keep: seq<Point>)
    ensures forall t :: t in Outside(s, keep) <==> t in s && t !in keep
  {
    if s != [] {
      OutsideMembers(s[..|s| - 1], keep);
      assert s == s[..|s| - 1] + [s[|s| - 1]];
    }
  }

  /** The payload of a "hidp" record: every point reflected back when the pass runs reflected. */
  function ShowAll(flp: bool, ps: seq<Point>): (r: seq<Point>)
    ensures |r| == |ps|
    ensures forall i :: 0 <= i < |ps| ==> r[i] == Show(flp, ps[i])
  {
    if flp then FlipAll(ps) else ps
  }

  /**
   * What `connect(p1, p2, points)` needs of its arguments: both ends are among the points, and
   * unless they are the same point, the points have no repetition and lie strictly between the
   * two ends in x (apart from the ends themselves).
   */
  predicate Span(p1: Point, p2: Point, points: seq<Point>) {
    p1 in points && p2 in points &&
    (p1 != p2 ==>
      Distinct(points) &&
      forall q :: q in points ==> (q == p1 || p1.x < q.x) && (q == p2 || q.x < p2.x))
  }

  /** A chain of hull vertices and the records pushed while building it. */
  datatype Chain = Chain(hull: seq<Point>, trace: seq<KpsAction>)

  /** A chain that starts at `p`. */
  predicate StartsAt(hull: seq<Point>, p: Point) {
    |hull| > 0 && hull[0] == p
  }

  /** A chain that ends at `p`. */
  predicate EndsAt(hull: seq<Point>, p: Point) {
    |hull| > 0 && hull[|hull| - 1] == p
  }

  lemma StartsAtJoin(a: seq<Point>, c: seq<Point>, p: Point)
    requires StartsAt(a, p)
    ensures StartsAt(a + c, p)
  {
    assert (a + c)[0] == a[0];
  }

  lemma EndsAtJoin(a: seq<Point>, c: seq<Point>, p: Point)
    requires EndsAt(c, p)
    ensures EndsAt(a + c, p)
  {
    assert (a + c)[|a + c| - 1] == c[|c| - 1];
  }

  /** Vertices listed from left to right. */
  predicate Rising(hull: seq<Point>) {
    forall i, j :: 0 <= i < j < |hull| ==> hull[i].x <= hull[j].x
  }

  /** The x halfway between the two middle points of `s` (in (x, then y) order), which `connect` splits at. */
  function MedianX(s: seq<Point>): (r: real)
    requires |s| >= 2
    ensures var a, b := s[|s| / 2 - 1].x, s[|s| / 2].x;
      (a <= b ==> a <= r <= b) && (b <= a ==> b <= r <= a)
  {
    (s[|s| / 2 - 1].x + s[|s| / 2].x) / 2.0
  }

  /**
   * `connect(p1, p2, points)`: the upper chain from `p1` to `p2`. The chain starts at `p1`, ends at
   * `p2`, uses only the given points and runs from left to right.
   */
  function Connect(edition: Edition, p1: Point, p2: Point, points: seq<Point>, flp: bool): (r: Result<Chain>)
    requires Span(p1, p2, points)
    decreases |points|
  {
    if p1 == p2 then Ok(Chain([p1], [Kagp(Show(flp, p1))]))
    else
      match Divide(edition, p1, p2, points, flp)
      case Err(f) => Err(f)
      case Ok(d) =>
        match Connect(edition, p1, d.bridge.left, d.sides.small, flp)
        case Err(f) => Err(f)
        case Ok(a) =>
          match Connect(edition, d.bridge.right, p2, d.sides.large, flp)
          case Err(f) => Err(f)
          case Ok(c) => Ok(Chain(a.hull + c.hull, d.events + a.trace + c.trace))
  }

  /** The chain `connect` returns is not empty and starts at `p1`. */
  lemma {:induction false} ConnectFirst(edition: Edition, p1: Point, p2: Point, points: seq<Point>, flp: bool)
    requires Span(p1, p2, points)
    ensures var r := Connect(edition, p1, p2, points, flp);
      r.Ok? ==> StartsAt(r.value.hull, p1)
    decreases |points|
  {
    if p1 != p2 {
      var dr := Divide(edition, p1, p2, points, flp);
      if dr.Ok? {
        var d := dr.value;
        var ar := Connect(edition, p1, d.bridge.left, d.sides.small, flp);
        var cr := Connect(edition, d.bridge.right, p2, d.sides.large, flp);
        if ar.Ok? && cr.Ok? {
          ConnectFirst(edition, p1, d.bridge.left, d.sides.small, flp);
          var a, c := ar.value.hull, cr.value.hull;
          assert Connect(edition, p1, p2, points, flp).value.hull == a + c;
          StartsAtJoin(a, c, p1);
        } else {
          assert Connect(edition, p1, p2, points, flp).Err?;
        }
      } else {
        assert Connect(edition, p1, p2, points, flp).Err?;
      }
    }
  }

  /** The chain `connect` returns is not empty and ends at `p2`. */
  lemma {:induction false} ConnectLast(edition: Edition, p1: Point, p2: Point, points: seq<Point>, flp: bool)
    requires Span(p1, p2, points)
    ensures var r := Connect(edition, p1, p2, points, flp);
      r.Ok? ==> EndsAt(r.value.hull, p2)
    decreases |points|
  {
    if p1 != p2 {
      var dr := Divide(edition, p1, p2, points, flp);
      if dr.Ok? {
        var d := dr.value;
        var ar := Connect(edition, p1, d.bridge.left, d.sides.small, flp);
        var cr := Connect(edition, d.bridge.right, p2, d.sides.large, flp);
        if ar.Ok? && cr.Ok? {
          ConnectLast(edition, d.bridge.right, p2, d.sides.large, flp);
          var a, c := ar.value.hull, cr.value.hull;
          assert Connect(edition, p1, p2, points, flp).value.hull == a + c;
          EndsAtJoin(a, c, p2);
        } else {
          assert Connect(edition, p1, p2, points, flp).Err?;
        }
      } else {
        assert Connect(edition, p1, p2, points, flp).Err?;
      }
    } else {
      assert Connect(edition, p1, p2, points, flp).value.hull == [p2];
    }
  }

  /** `connect` throws only where `getBridge` does: on a round whose pairs are all vertical. */
  lemma {:induction false} ConnectFault(edition: Edition, p1: Point, p2: Point, points: seq<Point>, flp: bool)
    requires Span(p1, p2, points)
    ensures var r := Connect(edition, p1, p2, points, flp);
      r.Err? ==> r.fault == NoMedianSlope
    decreases |points|
  {
    if p1 != p2 {
      var dr := Divide(edition, p1, p2, points, flp);
      if dr.Ok? {
        var d := dr.value;
        ConnectFault(edition, p1, d.bridge.left, d.sides.small, flp);
        ConnectFault(edition, d.bridge.right, p2, d.sides.large, flp);
      }
    }
  }

  /** The chain `connect` returns uses only the given points. */
  lemma {:induction false} ConnectWithin(edition: Edition, p1: Point, p2: Point, points: seq<Point>, flp: bool)
    requires Span(p1, p2, points)
    ensures var r := Connect(edition, p1, p2, points, flp);
      r.Ok? ==> forall t :: t in r.value.hull ==> t in points
    decreases |points|
  {
    if p1 != p2 {
      var dr := Divide(edition, p1, p2, points, flp);
      if dr.Ok? {
        var d := dr.value;
        var ar := Connect(edition, p1, d.bridge.left, d.sides.small, flp);
        var cr := Connect(edition, d.bridge.right, p2, d.sides.large, flp);
        if ar.Ok? && cr.Ok? {
          ConnectWithin(edition, p1, d.bridge.left, d.sides.small, flp);
          ConnectWithin(edition, d.bridge.right, p2, d.sides.large, flp);
          var a, c := ar.value.hull, cr.value.hull;
          assert Connect(edition, p1, p2, points, flp).value.hull == a + c;
        }
      }
    }
  }

  /** The chain `connect` returns runs from left to right. */
  lemma {:induction false} ConnectRising(edition: Edition, p1: Point, p2: Point, points: seq<Point>, flp: bool)
    requires Span(p1, p2, points)
    ensures var r := Connect(edition, p1, p2, points, flp);
      r.Ok? ==> Rising(r.value.hull)
    decreases |points|
  {
    if p1 != p2 {
      var dr := Divide(edition, p1, p2, points, flp);
      if dr.Ok? {
        var d := dr.value;
        var ar := Connect(edition, p1, d.bridge.left, d.sides.small, flp);
        var cr := Connect(edition, d.bridge.right, p2, d.sides.large, flp);
        if ar.Ok? && cr.Ok? {
          ConnectWithin(edition, p1, d.bridge.left, d.sides.small, flp);
          ConnectWithin(edition, d.bridge.right, p2, d.sides.large, flp);
          ConnectRising(edition, p1, d.bridge.left, d.sides.small, flp);
          ConnectRising(edition, d.bridge.right, p2, d.sides.large, flp);
          var a, c := ar.value.hull, cr.value.hull;
          JoinRising(a, c, d.bridge.left.x, d.bridge.right.x);
          assert Connect(edition, p1, p2, points, flp).value.hull == a + c;
        }
      }
    }
  }

  /** What `connect` computes before its two recursive calls, and the records it pushes meanwhile. */
  datatype Division = Division(sorted: seq<Point>, median: real, bridge: Bridge, sides: Sides, events: seq<KpsAction>)

  /**
   * The part of `connect` between its entry and its recursive calls. `quickselect` leaves `points`
   * sorted in (x, then y) order, and every later loop reads it in that order. Both halves are well
   * formed, smaller than `points`, and lie left and right of the bridge.
   */
  function Divide(edition: Edition, p1: Point, p2: Point, points: seq<Point>, flp: bool): (r: Result<Division>)
    requires Span(p1, p2, points) && p1 != p2
    ensures r.Ok? ==> var d := r.value; var small, large := d.sides.small, d.sides.large;
      Span(p1, d.bridge.left, small) && Span(d.bridge.right, p2, large) &&
      |small| < |points| && |large| < |points| && d.bridge.left.x <= d.bridge.right.x &&
      (forall t :: t in small ==> t in points && t.x <= d.bridge.left.x) &&
      (forall t :: t in large ==> t in points && t.x >= d.bridge.right.x)
  {
    var s := SortLex(points);
    var median := MedianX(s);
    MedianBetween(p1, p2, points);
    SortLexDistinct(points);
    match GetBridge(edition, s, median, flp)
    case Err(f) => Err(f)
    case Ok(b) =>
      var sides := SidesOf(s, b.left, b.right);
      SidesShrink(p1, p2, points, median, b.left, b.right);
      Ok(Division(s, median, b, sides, SplitEvents(flp, median, b, s, sides)))
  }

  /** The point sets `small` and `large` the two recursive calls of `connect` receive. */
  datatype Sides = Sides(small: seq<Point>, large: seq<Point>)

  /** `small` is the bridge's left end and the points left of it; `large` the right end and the points right of it. */
  function SidesOf(s: seq<Point>, left: Point, right: Point): Sides {
    Sides(AddAll([left], LeftOf(s, left.x)), AddAll([right], RightOf(s, right.x)))
  }

  /** The records `connect` pushes between its call of `getBridge` and its recursive calls. */
  function SplitEvents(flp: bool, median: real, b: Bridge, s: seq<Point>, sides: Sides): seq<KpsAction> {
    [Kmedx(if flp then -median else median)] + b.trace +
      [Radl, Dsl(Show(flp, b.left), Show(flp, b.right)),
       Hidp(ShowAll(flp, Outside(s, AddAll(sides.small, sides.large))))]
  }

  /**
   * The two middle points of the sorted points are neither end, so the median x lies strictly
   * between the ends.
   */
  lemma MedianBetween(p1: Point, p2: Point, points: seq<Point>)
    requires Span(p1, p2, points) && p1 != p2
    ensures |points| >= 2
    ensures p1.x < MedianX(SortLex(points)) < p2.x
  {
    var s := SortLex(points);
    var n := |points|;
    SortLexDistinct(points);
    DistinctSubsetShorter([p1], points, p2);
    var lo, hi := s[n / 2 - 1], s[n / 2];
    assert s[0] in points && s[n - 1] in points && lo in points && hi in points;
    assert LexLeq(s[0], hi) && s[0] != hi;
    assert LexLeq(lo, s[n - 1]) && lo != s[n - 1];
    assert LexLeq(lo, hi);
  }

  /**
   * A bridge over a median strictly between the ends leaves both recursive calls well formed
   * and smaller: the points left of the bridge miss `p2`, those right of it miss `p1`.
   */
  lemma SidesShrink(p1: Point, p2: Point, points: seq<Point>, median: real, left: Point, right: Point)
    requires Span(p1, p2, points) && p1 != p2
    requires p1.x < median < p2.x
    requires left in points && right in points && LexLeq(left, right)
    requires (left.x <= median <= right.x) || LexLess(left, right)
    ensures var sides := SidesOf(SortLex(points), left, right);
      var small, large := sides.small, sides.large;
      Span(p1, left, small) && Span(right, p2, large) &&
      |small| < |points| && |large| < |points| &&
      (forall t :: t in small ==> t in points && t.x <= left.x) &&
      (forall t :: t in large ==> t in points && t.x >= right.x)
  {
    SmallSide(p1, p2, points, median, left, right);
    LargeSide(p1, p2, points, median, left, right);
  }

  /** The points left of the bridge, with its left end, miss `p2`. */
  lemma SmallSide(p1: Point, p2: Point, points: seq<Point>, median: real, left: Point, right: Point)
    requires Span(p1, p2, points) && p1 != p2
    requires p1.x < median < p2.x
    requires left in points && right in points && LexLeq(left, right)
    requires (left.x <= median <= right.x) || LexLess(left, right)
    ensures var small := AddAll([left], LeftOf(SortLex(points), left.x));
      Span(p1, left, small) && |small| < |points| && forall t :: t in small ==> t in points && t.x <= left.x
  {
    var l := LeftOf(SortLex(points), left.x);
    var small := AddAll([left], l);
    AddAllMembers([left], l);
    assert left != p2;
    assert forall t :: t in small ==> t == left || t in l;
    assert p1 in small by {
      if p1 != left {
        assert p1.x < left.x && p1 in l;
      }
    }
    assert p2 !in small by {
      assert left.x < p2.x;
    }
    assert Distinct(small);
    assert forall t :: t in small ==> t in points && t.x <= left.x;
    DistinctSubsetShorter(small, points, p2);
  }

  /** The points right of the bridge, with its right end, miss `p1`. */
  lemma LargeSide(p1: Point, p2: Point, points: seq<Point>, median: real, left: Point, right: Point)
    requires Span(p1, p2, points) && p1 != p2
    requires p1.x < median < p2.x
    requires left in points && right in points && LexLeq(left, right)
    requires (left.x <= median <= right.x) || LexLess(left, right)
    ensures var large := AddAll([right], RightOf(SortLex(points), right.x));
      Span(right, p2, large) && |large| < |points| && forall t :: t in large ==> t in points && t.x >= right.x
  {
    var r := RightOf(SortLex(points), right.x);
    var large := AddAll([right], r);
    AddAllMembers([right], r);
    assert right != p1;
    assert forall t :: t in large ==> t == right || t in r;
    assert p2 in large by {
      if p2 != right {
        assert right.x < p2.x && p2 in r;
      }
    }
    assert p1 !in large by {
      assert p1.x < right.x;
    }
    assert Distinct(large);
    assert forall t :: t in large ==> t in points && t.x >= right.x;
    DistinctSubsetShorter(large, points, p1);
  }

  /** Two rising chains, the first left of `lx` and the second right of `rx >= lx`, join into a rising chain. */
  lemma JoinRising(a: seq<Point>, c: seq<Point>, lx: real, rx: real)
    requires Rising(a) && Rising(c) && lx <= rx
    requires forall t :: t in a ==> t.x <= lx
    requires forall t :: t in c ==> t.x >= rx
    ensures Rising(a + c)
  {
    forall i, j | 0 <= i < j < |a + c| ensures (a + c)[i].x <= (a + c)[j].x {
      if j >= |a| && i < |a| {
        assert (a + c)[i] == a[i] && a[i] in a;
        assert (a + c)[j] == c[j - |a|] && c[j - |a|] in c;
      }
    }
  }
  /** `leftMost` after its first loop: the first point of least x. */
  function FirstLeast(s: seq<Point>): (r: Point)
    requires |s| > 0
    ensures r in s && forall t :: t in s ==> r.x <= t.x
  {
    if |s| == 1 then s[0]
    else
      var m := FirstLeast(s[..|s| - 1]);
      assert s == s[..|s| - 1] + [s[|s| - 1]];
      if s[|s| - 1].x < m.x then s[|s| - 1] else m
  }

  /** `rightMost` after its first loop: the first point of greatest x. */
  function FirstGreatest(s: seq<Point>): (r: Point)
    requires |s| > 0
    ensures r in s && forall t :: t in s ==> t.x <= r.x
  {
    if |s| == 1 then s[0]
    else
      var m := FirstGreatest(s[..|s| - 1]);
      assert s == s[..|s| - 1] + [s[|s| - 1]];
      if s[|s| - 1].x > m.x then s[|s| - 1] else m
  }

  /** The points of `s` whose x is `x`, in order: what `getUpperHull` pushes on `leftarr` or `rightarr`. */
  function Column(s: seq<Point>, x: real): (r: seq<Point>)
    ensures |r| <= |s|
  {
    if s == [] then []
    else
      var init := Column(s[..|s| - 1], x);
      assert s == s[..|s| - 1] + [s[|s| - 1]];
      if s[|s| - 1].x == x then init + [s[|s| - 1]] else init
  }

  /** `Column` keeps exactly the points of `s` whose x is `x`. */
  lemma {:induction false} ColumnMembers(s: seq<Point>, x: real)
    ensures forall t :: t in Column(s, x) <==> t in s && t.x == x
  {
    if s != [] {
      ColumnMembers(s[..|s| - 1], x);
      assert s == s[..|s| - 1] + [s[|s| - 1]];
    }
  }

  /** The tie-breaking loop: moves up from `start` to the highest point of `s` straight above or below it. */
  function Raise(s: seq<Point>, start: Point): (r: Point)
    ensures r == start || r in s
    ensures r.x == start.x && start.y <= r.y
    ensures forall t :: t in s && t.x == start.x ==> t.y <= r.y
  {
    if s == [] then start
    else
      var c := Raise(s[..|s| - 1], start);
      assert s == s[..|s| - 1] + [s[|s| - 1]];
      if s[|s| - 1].x == c.x && s[|s| - 1].y > c.y then s[|s| - 1] else c
  }

  /** `leftMost`: of the points of least x, the highest. */
  function LeftMost(points: seq<Point>): (r: Point)
    requires |points| > 0
    ensures r in points
    ensures forall t :: t in points ==> r.x <= t.x && (t.x == r.x ==> t.y <= r.y)
  {
    Raise(points, FirstLeast(points))
  }

  /** `rightMost`: of the points of greatest x, the highest. */
  function RightMost(points: seq<Point>): (r: Point)
    requires |points| > 0
    ensures r in points
    ensures forall t :: t in points ==> t.x <= r.x && (t.x == r.x ==> t.y <= r.y)
  {
    Raise(points, FirstGreatest(points))
  }

  /** The points strictly between `lx` and `rx` in x and not below `miny`, in order. */
  function Between(s: seq<Point>, lx: real, rx: real, miny: real): (r: seq<Point>)
    ensures Distinct(s) ==> Distinct(r)
    ensures forall t :: t in r <==> t in s && lx < t.x < rx && t.y >= miny
  {
    if s == [] then []
    else
      var init := Between(s[..|s| - 1], lx, rx, miny);
      var last := s[|s| - 1];
      assert s == s[..|s| - 1] + [last];
      if lx < last.x < rx && last.y >= miny then
        assert Distinct(s) ==> last !in s[..|s| - 1] && Distinct(s[..|s| - 1]) by {
          if Distinct(s) {
            DistinctInit(s);
          }
        }
        init + [last]
      else
        assert Distinct(s) ==> Distinct(s[..|s| - 1]) by {
          if Distinct(s) {
            DistinctInit(s);
          }
        }
        init
  }

  /** `Math.min` of two coordinates. */
  function Min(a: real, b: real): real {
    if a <= b then a else b
  }

  /**
   * `newPoints`: `leftMost`, the points strictly between the two extremes in x that are not below
   * the lower of them, and `rightMost`.
   */
  function Kept(points: seq<Point>, leftMost: Point, rightMost: Point): seq<Point> {
    [leftMost] + Between(points, leftMost.x, rightMost.x, Min(leftMost.y, rightMost.y)) + [rightMost]
  }

  /** The two extremes and the kept points satisfy what `connect` needs. */
  lemma KeptSpan(points: seq<Point>)
    requires |points| > 0 && Distinct(points)
    ensures var l, r := LeftMost(points), RightMost(points);
      Span(l, r, Kept(points, l, r)) && forall t :: t in Kept(points, l, r) ==> t in points
  {
    var l, r := LeftMost(points), RightMost(points);
    var b := Between(points, l.x, r.x, Min(l.y, r.y));
    var k := Kept(points, l, r);
    assert k == [l] + b + [r];
    if l != r {
      assert l.x < r.x;
      assert Distinct(k) by {
        forall i, j | 0 <= i < j < |k| ensures k[i] != k[j] {
          if 0 < i && j < |k| - 1 {
            assert k[i] == b[i - 1] && k[j] == b[j - 1];
          } else if 0 < i {
            assert k[i] == b[i - 1] && k[i] in b;
          } else if j < |k| - 1 {
            assert k[j] == b[j - 1] && k[j] in b;
          }
        }
      }
    }
  }

  /** What one run of `getUpperHull` returns and leaves in `actions`, `leftarr` and `rightarr`. */
  datatype Pass = Pass(hull: seq<Point>, trace: seq<KpsAction>, leftarr: seq<Point>, rightarr: seq<Point>)

  /**
   * `getUpperHull`: picks the extremes, hides what lies below the chord between them and connects
   * them. On the unreflected pass it also records the points level with each extreme. The chain
   * runs from `leftMost` to `rightMost` through input points, from left to right.
   */
  function GetUpperHull(edition: Edition, points: seq<Point>, flp: bool, leftarr: seq<Point>, rightarr: seq<Point>): (r: Result<Pass>)
    requires Distinct(points)
    ensures r.Ok? ==> |points| > 0 && StartsAt(r.value.hull, LeftMost(points)) && EndsAt(r.value.hull, RightMost(points))
    ensures r.Ok? ==> (forall t :: t in r.value.hull ==> t in points) && Rising(r.value.hull)
    ensures r.Ok? && flp ==> r.value.leftarr == leftarr && r.value.rightarr == rightarr
    ensures r.Err? ==> r.fault == if points == [] then NoPoints else NoMedianSlope
    ensures points == [] ==> r.Err?
  {
    if points == [] then Err(NoPoints) else
    var leftMost, rightMost := LeftMost(points), RightMost(points);
    var leftarr' := if flp then leftarr else leftarr + Column(points, FirstLeast(points).x);
    var rightarr' := if flp then rightarr else rightarr + Column(points, FirstGreatest(points).x);
    var kept := Kept(points, leftMost, rightMost);
    var hidden := ShowAll(flp, Outside(points, Dedup(kept)));
    KeptSpan(points);
    ConnectFault(edition, leftMost, rightMost, kept, flp);
    match Connect(edition, leftMost, rightMost, kept, flp)
    case Err(f) => Err(f)
    case Ok(c) =>
      ConnectFirst(edition, leftMost, rightMost, kept, flp);
      ConnectLast(edition, leftMost, rightMost, kept, flp);
      ConnectWithin(edition, leftMost, rightMost, kept, flp);
      ConnectRising(edition, leftMost, rightMost, kept, flp);
      Ok(Pass(c.hull, [Kabp(Show(flp, leftMost), Show(flp, rightMost)), Hidp(hidden)] + c.trace, leftarr', rightarr'))
  }
  /** The reflection of points without repetition has none either. */
  lemma FlipAllDistinct(ps: seq<Point>)
    requires Distinct(ps)
    ensures Distinct(FlipAll(ps))
  {
    var f := FlipAll(ps);
    forall i, j | 0 <= i < j < |f| ensures f[i] != f[j] {
      FlipInvolution(ps[i]);
      FlipInvolution(ps[j]);
    }
  }

  /** The "xterm" record `convexHull` pushes for `arr`, if it holds at least two points; it sorts `arr` by y in place. */
  function Xterms(arr: seq<Point>): (r: seq<KpsAction>)
    ensures |r| <= 1
  {
    if |arr| >= 2 then [Xterm(SortByY(arr))] else []
  }

  /** `arr` after the "xterm" step: sorted by y when it holds at least two points. */
  function AfterXterm(arr: seq<Point>): (r: seq<Point>)
    ensures multiset(r) == multiset(arr)
    ensures |arr| >= 2 ==> SortedByY(r)
    ensures |arr| < 2 ==> r == arr
  {
    if |arr| >= 2 then SortByY(arr) else arr
  }

  /**
   * The two pops of `convexHull` and the concatenation: the upper chain loses its last point when
   * the lower chain starts there, then the lower chain loses its last point when the upper chain
   * starts there. An upper chain left empty makes the source throw (`None` here). Otherwise the
   * hull is the upper chain then the lower chain, each without the end it shares with the other,
   * and it holds every point of both chains.
   */
  function Close(upper: seq<Point>, lower: seq<Point>): (r: Option<seq<Point>>)
    requires |upper| > 0 && |lower| > 0
    ensures r.None? <==> upper == [lower[0]]
    ensures r.Some? ==> |r.value| > 0 && r.value[0] == upper[0]
    ensures r.Some? ==> forall t :: t in r.value <==> t in upper || t in lower
    ensures r.Some? ==> |upper| + |lower| - 2 <= |r.value| <= |upper| + |lower|
    ensures r.Some? ==>
      r.value == (if upper[|upper| - 1] == lower[0] then upper[..|upper| - 1] else upper) +
                 (if upper[0] == lower[|lower| - 1] then lower[..|lower| - 1] else lower)
  {
    var u := if upper[|upper| - 1] == lower[0] then upper[..|upper| - 1] else upper;
    if u == [] then None
    else
      var l := if u[0] == lower[|lower| - 1] then lower[..|lower| - 1] else lower;
      assert forall t :: t in u ==> t in upper;
      assert forall t :: t in l ==> t in lower;
      assert upper == u + (if |u| < |upper| then [lower[0]] else []);
      assert lower == l + (if |l| < |lower| then [u[0]] else []);
      Some(u + l)
  }

  /**
   * When the two chains have no repetition and share no point but the ends where they meet, the
   * pops remove exactly the shared ends: the hull has no repetition.
   */
  lemma CloseDistinct(upper: seq<Point>, lower: seq<Point>)
    requires |upper| > 0 && |lower| > 0 && Distinct(upper) && Distinct(lower)
    requires forall t :: t in upper && t in lower ==>
      (t == upper[|upper| - 1] && t == lower[0]) || (t == upper[0] && t == lower[|lower| - 1])
    ensures Close(upper, lower).Some? ==> Distinct(Close(upper, lower).value)
  {
    if Close(upper, lower).Some? {
      var u := if upper[|upper| - 1] == lower[0] then upper[..|upper| - 1] else upper;
      var l := if upper[0] == lower[|lower| - 1] then lower[..|lower| - 1] else lower;
      DistinctInit(upper);
      DistinctInit(lower);
      assert Distinct(u) && Distinct(l);
      assert upper[0] in u && forall t :: t in u ==> t in upper;
      assert forall t :: t in l ==> t in lower;
      assert upper[|upper| - 1] == lower[0] ==> upper[|upper| - 1] !in u;
      assert upper[0] == lower[|lower| - 1] ==> lower[|lower| - 1] !in l;
      DistinctConcat(u, l);
    }
  }

  /** What `convexHull` returns and leaves in `actions`, `leftarr` and `rightarr`. */
  datatype Hull = Hull(hull: seq<Point>, trace: seq<KpsAction>, leftarr: seq<Point>, rightarr: seq<Point>)

  /**
   * `convexHull`: the upper chain of the points, then the upper chain of their reflection reflected
   * back as the lower chain, joined by `Close`. `doc_script.js` leaves out the last "radl".
   */
  function ConvexHull(edition: Edition, points: seq<Point>, leftarr: seq<Point>, rightarr: seq<Point>): (r: Result<Hull>)
    requires Distinct(points)
    ensures r.Ok? ==> |points| > 0 && StartsAt(r.value.hull, LeftMost(points))
    ensures r.Ok? ==> forall t :: t in r.value.hull ==> t in points
  {
    match GetUpperHull(edition, points, false, leftarr, rightarr)
    case Err(f) => Err(f)
    case Ok(up) =>
      FlipAllDistinct(points);
      match GetUpperHull(edition, FlipAll(points), true, up.leftarr, up.rightarr)
      case Err(f) => Err(f)
      case Ok(low) =>
        LowerWithin(points, low.hull);
        Finish(edition, up, low)
  }

  /**
   * The pops empty the upper chain only when it is a single point: then its first point, its last
   * point and the reflection of the lower chain's first point coincide.
   */
  lemma PopsEmpty(edition: Edition, up: Pass, low: Pass, left: Point, right: Point, lowLeft: Point)
    requires StartsAt(up.hull, left) && EndsAt(up.hull, right) && StartsAt(low.hull, lowLeft)
    ensures Finish(edition, up, low).Err? ==> left == right && left == Flip(lowLeft)
  {
  }

  /**
   * The end of `convexHull` once both passes are done: the records around them, the "xterm"
   * records, and the pops joining the upper chain to the lower chain (the reflected pass's chain
   * reflected back). The hull starts where the upper chain does and holds only chain points; it
   * throws exactly when the upper chain is the lower chain's first point alone.
   */
  function Finish(edition: Edition, up: Pass, low: Pass): (r: Result<Hull>)
    requires |up.hull| > 0 && |low.hull| > 0
    ensures r.Err? <==> up.hull == [Flip(low.hull[0])]
    ensures r.Err? ==> r.fault == EmptyUpperChain
    ensures r.Ok? ==> StartsAt(r.value.hull, up.hull[0])
    ensures r.Ok? ==> forall t :: t in r.value.hull ==> t in up.hull || t in FlipAll(low.hull)
    ensures r.Ok? ==> Close(up.hull, FlipAll(low.hull)) == Some(r.value.hull)
    ensures r.Ok? ==> r.value.leftarr == AfterXterm(low.leftarr) && r.value.rightarr == AfterXterm(low.rightarr)
  {
    var trace := up.trace + [Uhid, Radl] + low.trace + [Uhid] + Xterms(low.leftarr) + Xterms(low.rightarr) +
      (if edition == Script then [Radl] else []);
    match Close(up.hull, FlipAll(low.hull))
    case None => Err(EmptyUpperChain)
    case Some(h) => Ok(Hull(h, trace, AfterXterm(low.leftarr), AfterXterm(low.rightarr)))
  }

  /**
   * The hull `convexHull` returns is the upper chain of the points joined by `Close` to the upper
   * chain of their reflection, reflected back; so it holds every point of both chains.
   */
  lemma ConvexHullCloses(edition: Edition, points: seq<Point>, leftarr: seq<Point>, rightarr: seq<Point>)
    requires Distinct(points) && Distinct(FlipAll(points))
    ensures var r := ConvexHull(edition, points, leftarr, rightarr);
      r.Ok? ==>
        var up := GetUpperHull(edition, points, false, leftarr, rightarr);
        up.Ok? && |up.value.hull| > 0 &&
        var low := GetUpperHull(edition, FlipAll(points), true, up.value.leftarr, up.value.rightarr);
        low.Ok? && |low.value.hull| > 0 &&
        Close(up.value.hull, FlipAll(low.value.hull)) == Some(r.value.hull)
  {
  }

  /** A chain over the reflected points, reflected back, lies on the points. */
  lemma LowerWithin(points: seq<Point>, chain: seq<Point>)
    requires forall t :: t in chain ==> t in FlipAll(points)
    ensures forall t :: t in FlipAll(chain) ==> t in points
  {
    forall t | t in FlipAll(chain) ensures t in points {
      FlipAllMembership(chain, t);
      FlipAllMembership(points, Flip(t));
      FlipInvolution(t);
    }
  }
  /** On a single point both passes return that point alone. */
  lemma UpperOfOne(edition: Edition, p: Point, flp: bool, leftarr: seq<Point>, rightarr: seq<Point>)
    ensures var r := GetUpperHull(edition, [p], flp, leftarr, rightarr);
      r.Ok? && r.value.hull == [p]
  {
    assert LeftMost([p]) == p && RightMost([p]) == p;
    assert Connect(edition, p, p, Kept([p], p, p), flp) == Ok(Chain([p], [Kagp(Show(flp, p))]));
  }

  /**
   * A single point makes `convexHull` throw: both chains are that point, the upper one loses it to
   * the first pop, and `upperHull[0]` is then undefined.
   */
  lemma OnePointThrows(edition: Edition, p: Point, leftarr: seq<Point>, rightarr: seq<Point>)
    ensures ConvexHull(edition, [p], leftarr, rightarr) == Err(EmptyUpperChain)
  {
    UpperOfOne(edition, p, false, leftarr, rightarr);
    var up := GetUpperHull(edition, [p], false, leftarr, rightarr).value;
    assert FlipAll([p]) == [Flip(p)];
    UpperOfOne(edition, Flip(p), true, up.leftarr, up.rightarr);
    FlipInvolution(p);
    assert FlipAll([Flip(p)]) == [p];
  }
  /** Conversely, the pops empty the upper chain only when there is a single point. */
  lemma ThrowsOnlyOnOnePoint(edition: Edition, points: seq<Point>, leftarr: seq<Point>, rightarr: seq<Point>)
    requires |points| > 0 && Distinct(points)
    requires ConvexHull(edition, points, leftarr, rightarr) == Err(EmptyUpperChain)
    ensures |points| == 1
  {
    var up, low := BothPasses(edition, points, leftarr, rightarr);
    SingleColumn(points, up.hull[0]);
  }

  /** When `convexHull` throws at the pops, both passes returned a chain and the upper one is a single point. */
  lemma BothPasses(edition: Edition, points: seq<Point>, leftarr: seq<Point>, rightarr: seq<Point>)
    returns (up: Pass, low: Pass)
    requires Distinct(points)
    requires ConvexHull(edition, points, leftarr, rightarr) == Err(EmptyUpperChain)
    ensures |points| > 0 && up.hull == [LeftMost(points)] && up.hull == [RightMost(points)]
    ensures up.hull[0] == Flip(LeftMost(FlipAll(points)))
  {
    FlipAllDistinct(points);
    up := GetUpperHull(edition, points, false, leftarr, rightarr).value;
    low := GetUpperHull(edition, FlipAll(points), true, up.leftarr, up.rightarr).value;
    PopsEmpty(edition, up, low, LeftMost(points), RightMost(points), LeftMost(FlipAll(points)));
  }

  /**
   * A point that is at once the top-left, the top-right and the reflection of the top-left of the
   * reflected points is the only point.
   */
  lemma SingleColumn(points: seq<Point>, top: Point)
    requires |points| > 0 && Distinct(points)
    requires top == LeftMost(points) && top == RightMost(points) && top == Flip(LeftMost(FlipAll(points)))
    ensures |points| == 1
  {
    var f := LeftMost(FlipAll(points));
    FlipAllMembership(points, f);
    FlipInvolution(f);
    forall t | t in points ensures t == top {
      FlipAllMembership(points, Flip(t));
      FlipInvolution(t);
    }
    assert (set t | t in points) == {top};
    ElementCount(points);
  }
}
