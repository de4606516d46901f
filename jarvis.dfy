/**
 * The Jarvis March (gift wrapping) pipeline: starting from the lowest point it repeatedly picks the
 * point that makes the smallest turning angle, and records every drawing step as an action.
 * The turning angle and the distance are parameters of the model (see `Metric`).
 */
module JarvisMarch {
  import opened Seqs
  import opened Geometry
  import opened OrderedSet
  import opened Outcomes

  /** One entry of the action array the animation replays. */
  datatype Action =
    | Ccb(p: Point)                // "ccb": mark the current origin
    | Ccg(p: Point)                // "ccg": mark a hull point
    | Asl(from: Point, to: Point)  // "asl": draw the solid line to the best candidate so far
    | Adl(from: Point, to: Point)  // "adl": draw a dashed probe line
    | Rsl                          // "rsl": remove the most recent solid line
    | Rdl                          // "rdl": remove every dashed line

  /** `Number.MAX_SAFE_INTEGER`, both coordinates of the starting sentinel. */
  const MaxSafeInteger: real := 9007199254740991.0

  /**
   * The two floating-point library computations the march relies on: `findAngle(prev_o, o, p)`
   * (an `atan2` shifted into degrees) and `Math.hypot(dx, dy)`.
   */
  datatype Metric = Metric(findAngle: (Point, Point, Point) -> real, hypot: (real, real) -> real)

  /** `findAngle` adds 180 to an `atan2` result in degrees, so it never exceeds 360. */
  ghost predicate AngleAtMost360(metric: Metric) {
    forall a, b, c :: metric.findAngle(a, b, c) <= 360.0
  }

  /** `Math.hypot(o.x - p.x, o.y - p.y)`: how far `p` lies from the origin `o`. */
  function Distance(metric: Metric, o: Point, p: Point): real {
    metric.hypot(o.x - p.x, o.y - p.y)
  }

  /** `shallowEqualityCheck`: both points have the same keys with the same values. */
  function ShallowEqual(a: Point, b: Point): (r: bool)
    ensures r <==> a == b
  {
    a.x == b.x && a.y == b.y
  }

  /** The points `findNextOrigin` looks at: it skips copies of the origin and of the previous origin. */
  predicate Eligible(prev: Point, o: Point, p: Point) {
    p != o && p != prev
  }

  /** `p` wins over `q`: a smaller angle, or the same angle and nearer to the origin. */
  predicate Beats(metric: Metric, prev: Point, o: Point, p: Point, q: Point) {
    metric.findAngle(prev, o, p) < metric.findAngle(prev, o, q) ||
    (metric.findAngle(prev, o, p) == metric.findAngle(prev, o, q) && Distance(metric, o, p) < Distance(metric, o, q))
  }

  /**
   * The variables of `findNextOrigin` after some prefix of the points, with the actions pushed so
   * far; `thrown` once the loop has thrown, after which nothing changes.
   */
  datatype ScanState = ScanState(bestAngle: real, best: Option<Point>, events: seq<Action>, thrown: bool)

  /** One iteration of the loop of `findNextOrigin`. */
  function Step(metric: Metric, prev: Point, o: Point, st: ScanState, p: Point): (r: ScanState)
    requires AngleAtMost360(metric)
    requires st.best.None? ==> st.bestAngle == 360.0 && st.events == []
    requires st.thrown ==> st.best.None?
    ensures r.best.None? ==> r.bestAngle == 360.0 && r.events == []
    ensures r.thrown ==> r.best.None?
  {
    if st.thrown || !Eligible(prev, o, p) then st
    else
      var a := metric.findAngle(prev, o, p);
      if a < st.bestAngle then
        var drawn := if st.best.None? then [Asl(o, p)] else [Adl(o, p), Rsl, Asl(o, p), Rdl];
        ScanState(a, Some(p), st.events + drawn, false)
      else if a == st.bestAngle then
        if st.best.None? then st.(thrown := true)
        else if Distance(metric, o, st.best.value) > Distance(metric, o, p) then st.(best := Some(p))
        else st
      else
        st.(events := st.events + [Adl(o, p), Rdl])
  }

  /** The loop of `findNextOrigin` run over `pts`. */
  function Scan(metric: Metric, prev: Point, o: Point, pts: seq<Point>): (r: ScanState)
    requires AngleAtMost360(metric)
    ensures r.best.None? ==> r.bestAngle == 360.0 && r.events == []
    ensures r.thrown ==> r.best.None?
  {
    if pts == [] then ScanState(360.0, None, [], false)
    else Step(metric, prev, o, Scan(metric, prev, o, pts[..|pts| - 1]), pts[|pts| - 1])
  }

  /** No point before `j` is eligible and `pts[j]` is: the first point `findNextOrigin` compares. */
  predicate FirstEligibleAt(prev: Point, o: Point, pts: seq<Point>, j: int) {
    0 <= j < |pts| && Eligible(prev, o, pts[j]) && forall i :: 0 <= i < j ==> !Eligible(prev, o, pts[i])
  }

  /**
   * `findNextOrigin` throws exactly when the first eligible point makes an angle of 360: it meets
   * `best_angle == 360` while `best_point` is still null.
   */
  lemma {:induction false} ScanThrows(metric: Metric, prev: Point, o: Point, pts: seq<Point>)
    requires AngleAtMost360(metric)
    ensures Scan(metric, prev, o, pts).thrown <==>
      exists j :: FirstEligibleAt(prev, o, pts, j) && metric.findAngle(prev, o, pts[j]) == 360.0
  {
    if pts != [] {
      var init, p := pts[..|pts| - 1], pts[|pts| - 1];
      ScanThrows(metric, prev, o, init);
      ScanNone(metric, prev, o, init);
      assert forall i :: 0 <= i < |init| ==> pts[i] == init[i];
      assert forall k :: 0 <= k < |init| ==> (FirstEligibleAt(prev, o, pts, k) <==> FirstEligibleAt(prev, o, init, k));
      assert FirstEligibleAt(prev, o, pts, |init|) <==>
        Eligible(prev, o, p) && forall i :: 0 <= i < |init| ==> !Eligible(prev, o, init[i]);
    }
  }

  /** When it does not throw, `findNextOrigin` returns null exactly when every point is a copy of the
   * origin or of the previous origin. */
  lemma {:induction false} ScanNone(metric: Metric, prev: Point, o: Point, pts: seq<Point>)
    requires AngleAtMost360(metric)
    ensures var r := Scan(metric, prev, o, pts);
      !r.thrown ==> (r.best.None? <==> forall i :: 0 <= i < |pts| ==> !Eligible(prev, o, pts[i]))
  {
    if pts != [] {
      var init := pts[..|pts| - 1];
      ScanNone(metric, prev, o, init);
      assert forall i :: 0 <= i < |init| ==> pts[i] == init[i];
    }
  }

  /** After the loop has thrown, the remaining points change nothing. */
  lemma {:induction false} ScanStaysThrown(metric: Metric, prev: Point, o: Point, pts: seq<Point>, k: nat)
    requires AngleAtMost360(metric) && k <= |pts|
    requires Scan(metric, prev, o, pts[..k]).thrown
    ensures Scan(metric, prev, o, pts) == Scan(metric, prev, o, pts[..k])
    decreases |pts| - k
  {
    if k < |pts| {
      assert pts[..k + 1][..k] == pts[..k];
      ScanStaysThrown(metric, prev, o, pts, k + 1);
    } else {
      assert pts[..k] == pts;
    }
  }

  /**
   * When `findNextOrigin` returns a point, it is an eligible point that no eligible point beats and
   * that beats every eligible point listed before it (so on equal angle and equal distance the first
   * one listed is kept).
   */
  lemma {:induction false} ScanBest(metric: Metric, prev: Point, o: Point, pts: seq<Point>)
    requires AngleAtMost360(metric)
    ensures var r := Scan(metric, prev, o, pts);
      (r.best.Some? ==>
        r.best.value in pts && Eligible(prev, o, r.best.value) &&
        r.bestAngle == metric.findAngle(prev, o, r.best.value) &&
        (forall q :: q in pts && Eligible(prev, o, q) ==> !Beats(metric, prev, o, q, r.best.value)) &&
        exists j :: 0 <= j < |pts| && pts[j] == r.best.value &&
          forall i :: 0 <= i < j && Eligible(prev, o, pts[i]) ==> Beats(metric, prev, o, r.best.value, pts[i]))
  {
    if pts != [] {
      var init, p := pts[..|pts| - 1], pts[|pts| - 1];
      assert pts == init + [p];
      ScanBest(metric, prev, o, init);
      var st := Scan(metric, prev, o, init);
      var r := Scan(metric, prev, o, pts);
      if !st.thrown && Eligible(prev, o, p) &&
         (if st.best.None? then metric.findAngle(prev, o, p) < 360.0 else Beats(metric, prev, o, p, st.best.value)) {
        assert r.best == Some(p) && pts[|init|] == p;
        ScanNone(metric, prev, o, init);
        forall i | 0 <= i < |init| && Eligible(prev, o, pts[i])
          ensures Beats(metric, prev, o, p, pts[i])
        {
          assert pts[i] == init[i] && init[i] in init;
        }
      } else if r.best.Some? {
        var b := r.best.value;
        assert st.best == r.best;
        var j :| 0 <= j < |init| && init[j] == b &&
          forall i :: 0 <= i < j && Eligible(prev, o, init[i]) ==> Beats(metric, prev, o, b, init[i]);
        assert pts[j] == b;
        forall i | 0 <= i < j && Eligible(prev, o, pts[i])
          ensures Beats(metric, prev, o, b, pts[i])
        {
          assert pts[i] == init[i];
        }
      }
    }
  }

  /** The input holds at least three different points (copies of a point are allowed). */
  predicate ThreeDifferent(points: seq<Point>) {
    |set p | p in points| >= 3
  }

  /** Among at least three different points, some point differs from both `a` and `b`. */
  lemma ThirdPoint(points: seq<Point>, a: Point, b: Point)
    requires ThreeDifferent(points)
    ensures exists i :: 0 <= i < |points| && points[i] != a && points[i] != b
  {
    var all := set p | p in points;
    var rest := all - {a, b};
    assert all <= rest + {a, b};
    SubsetCard(all, rest + {a, b});
    var c :| c in rest;
  }

  /** On three different points `findNextOrigin` returns a point unless it throws. */
  lemma ScanFinds(metric: Metric, prev: Point, o: Point, points: seq<Point>)
    requires AngleAtMost360(metric)
    ensures var s := Scan(metric, prev, o, points);
      ThreeDifferent(points) && !s.thrown ==> s.best.Some?
  {
    if ThreeDifferent(points) {
      ThirdPoint(points, prev, o);
      ScanNone(metric, prev, o, points);
    }
  }

  /**
   * The candidate of one round of `Jarvis`: the point `findNextOrigin(prev, o, points)` returns, the
   * exception it throws, or, when it returns null, the exception `shallowEqualityCheck` then throws
   * on reading the keys of null. On three different points it never returns null.
   */
  function NextOrigin(metric: Metric, prev: Point, o: Point, points: seq<Point>): (r: Result<Point>)
    requires AngleAtMost360(metric)
    ensures var s := Scan(metric, prev, o, points);
      r.Err? <==> s.thrown || s.best.None?
    ensures r.Err? ==> r.fault == if Scan(metric, prev, o, points).thrown then NullBestPoint else NullCandidate
    ensures ThreeDifferent(points) && r.Err? ==> r.fault == NullBestPoint
    ensures r.Ok? ==> r.value in points && Eligible(prev, o, r.value) && Scan(metric, prev, o, points).best == Some(r.value)
  {
    var s := Scan(metric, prev, o, points);
    ScanBest(metric, prev, o, points);
    ScanFinds(metric, prev, o, points);
    if s.thrown then Err(NullBestPoint)
    else if s.best.None? then Err(NullCandidate)
    else Ok(s.best.value)
  }

  /** `findNextOrigin`: returns the best candidate, or throws, and gives the actions it pushed. */
  method FindNextOrigin(prev: Point, o: Point, points: seq<Point>, metric: Metric)
    returns (bestPoint: Result<Option<Point>>, emitted: seq<Action>)
    requires AngleAtMost360(metric)
    ensures bestPoint.Err? <==> Scan(metric, prev, o, points).thrown
    ensures bestPoint.Err? ==> bestPoint.fault == NullBestPoint
    ensures bestPoint.Ok? ==> bestPoint.value == Scan(metric, prev, o, points).best
    ensures emitted == Scan(metric, prev, o, points).events
  {
    var flag := 0;
    var bestAngle := 360.0;
    var best: Option<Point> := None;
    emitted := [];
    var i := 0;
    while i < |points|
      invariant 0 <= i <= |points|
      invariant Scan(metric, prev, o, points[..i]) == ScanState(bestAngle, best, emitted, false)
      invariant flag == (if best.None? then 0 else 1)
    {
      assert points[..i + 1] == points[..i] + [points[i]];
      var p := points[i];
      if ShallowEqual(p, o) || ShallowEqual(p, prev) {
        i := i + 1;
        continue;
      }
      var a := metric.findAngle(prev, o, p);
      if a < bestAngle {
        if flag == 0 {
          emitted := emitted + [Asl(o, p)];
          flag := flag + 1;
        } else {
          emitted := emitted + [Adl(o, p), Rsl, Asl(o, p), Rdl];
        }
        bestAngle := a;
        best := Some(p);
      } else if a == bestAngle {
        if best.None? {
          ScanStaysThrown(metric, prev, o, points, i + 1);
          return Err(NullBestPoint), emitted;
        }
        if Distance(metric, o, best.value) > Distance(metric, o, p) {
          bestAngle := a;
          best := Some(p);
        }
      } else {
        emitted := emitted + [Adl(o, p), Rdl];
      }
      i := i + 1;
    }
    assert points[..i] == points;
    bestPoint := Ok(best);
  }

  /** The lines on screen while the actions are replayed: solid lines form a stack, dashed lines a pile. */
  datatype Lines = Lines(solid: nat, dashed: nat)

  /** The lines after replaying `ev`; `None` when an "rsl" finds no solid line to remove. */
  function Replay(l: Lines, ev: seq<Action>): Option<Lines> {
    if ev == [] then Some(l)
    else match Replay(l, ev[..|ev| - 1])
      case None => None
      case Some(m) => Effect(m, ev[|ev| - 1])
  }

  /** The effect of one action on the lines. */
  function Effect(m: Lines, e: Action): Option<Lines> {
    match e
    case Asl(_, _) => Some(m.(solid := m.solid + 1))
    case Rsl => if m.solid == 0 then None else Some(m.(solid := m.solid - 1))
    case Adl(_, _) => Some(m.(dashed := m.dashed + 1))
    case Rdl => Some(m.(dashed := 0))
    case _ => Some(m)
  }

  /** Replaying `a + b` replays `b` from wherever `a` left the lines. */
  lemma {:induction false} ReplayAppend(l: Lines, a: seq<Action>, b: seq<Action>, m: Lines)
    requires Replay(l, a) == Some(m)
    ensures Replay(l, a + b) == Replay(m, b)
  {
    if b != [] {
      var ab, bi := a + b, b[..|b| - 1];
      assert ab[..|ab| - 1] == a + bi;
      assert ab[|ab| - 1] == b[|b| - 1];
      ReplayAppend(l, a, bi, m);
    } else {
      assert a + b == a;
    }
  }

  /**
   * A call of `findNextOrigin` never removes a solid line it did not draw, clears every dashed line
   * it draws, and leaves exactly one new solid line (to the point it returns) when it finds one.
   */
  lemma {:induction false} ScanLines(metric: Metric, prev: Point, o: Point, pts: seq<Point>, s: nat)
    requires AngleAtMost360(metric)
    ensures var r := Scan(metric, prev, o, pts);
      Replay(Lines(s, 0), r.events) == Some(Lines(if r.best.Some? then s + 1 else s, 0))
  {
    if pts != [] {
      var init := pts[..|pts| - 1];
      ScanLines(metric, prev, o, init, s);
      StepLines(metric, prev, o, Scan(metric, prev, o, init), pts[|pts| - 1], s);
    }
  }

  /** One iteration of `findNextOrigin` keeps the line count of `ScanLines`. */
  lemma StepLines(metric: Metric, prev: Point, o: Point, st: ScanState, p: Point, s: nat)
    requires AngleAtMost360(metric)
    requires st.best.None? ==> st.bestAngle == 360.0 && st.events == []
    requires st.thrown ==> st.best.None?
    requires Replay(Lines(s, 0), st.events) == Some(Lines(if st.best.Some? then s + 1 else s, 0))
    ensures var r := Step(metric, prev, o, st, p);
      Replay(Lines(s, 0), r.events) == Some(Lines(if r.best.Some? then s + 1 else s, 0))
  {
    var m := Lines(if st.best.Some? then s + 1 else s, 0);
    var r := Step(metric, prev, o, st, p);
    if r.events != st.events {
      var d := r.events[|st.events|..];
      assert r.events == st.events + d;
      ReplayAppend(Lines(s, 0), st.events, d, m);
      Chunks(m, o, p, false);
    }
  }

  /** The three groups of actions one iteration of `findNextOrigin` can push: their effect on the
   * lines, and that they mark no point. */
  lemma Chunks(m: Lines, o: Point, p: Point, green: bool)
    ensures Replay(m, [Asl(o, p)]) == Some(m.(solid := m.solid + 1))
    ensures Replay(m, [Adl(o, p), Rdl]) == Some(m.(dashed := 0))
    ensures m.solid > 0 ==> Replay(m, [Adl(o, p), Rsl, Asl(o, p), Rdl]) == Some(m.(dashed := 0))
    ensures Marks([Asl(o, p)], green) == [] && Marks([Adl(o, p), Rdl], green) == []
    ensures Marks([Adl(o, p), Rsl, Asl(o, p), Rdl], green) == []
  {
    var four := [Adl(o, p), Rsl, Asl(o, p), Rdl];
    assert four[..3] == [Adl(o, p), Rsl, Asl(o, p)];
    assert four[..3][..2] == [Adl(o, p), Rsl] && [Adl(o, p), Rdl][..1] == [Adl(o, p)];
    assert four[..3][..2][..1] == [Adl(o, p)] && [Adl(o, p)][..0] == [] && [Asl(o, p)][..0] == [];
    assert Replay(m, [Adl(o, p)]) == Some(m.(dashed := m.dashed + 1));
    assert Marks([Adl(o, p)], green) == [];
    assert Marks(four[..3][..2], green) == [];
    assert Marks(four[..3], green) == [];
    if m.solid > 0 {
      assert Replay(m, four[..3][..2]) == Some(Lines(m.solid - 1, m.dashed + 1));
      assert Replay(m, four[..3]) == Some(Lines(m.solid, m.dashed + 1));
    }
  }

  /** The points of the circles in `ev`: the "ccg" marks when `green`, else the "ccb" marks. */
  function Marks(ev: seq<Action>, green: bool): seq<Point> {
    if ev == [] then []
    else Marks(ev[..|ev| - 1], green) + Mark(ev[|ev| - 1], green)
  }

  /** The point one action marks in the colour asked for, if any. */
  function Mark(e: Action, green: bool): seq<Point> {
    if (green && e.Ccg?) || (!green && e.Ccb?) then [e.p] else []
  }

  lemma {:induction false} MarksAppend(a: seq<Action>, b: seq<Action>, green: bool)
    ensures Marks(a + b, green) == Marks(a, green) + Marks(b, green)
  {
    if b == [] {
      assert a + b == a;
    } else {
      var ab, bi := a + b, b[..|b| - 1];
      assert ab[..|ab| - 1] == a + bi;
      assert ab[|ab| - 1] == b[|b| - 1];
      MarksAppend(a, bi, green);
    }
  }

  /** `findNextOrigin` draws lines only: it marks no point. */
  lemma {:induction false} ScanMarksNothing(metric: Metric, prev: Point, o: Point, pts: seq<Point>, green: bool)
    requires AngleAtMost360(metric)
    ensures Marks(Scan(metric, prev, o, pts).events, green) == []
  {
    if pts != [] {
      var init := pts[..|pts| - 1];
      ScanMarksNothing(metric, prev, o, init, green);
      var st := Scan(metric, prev, o, init);
      var r := Scan(metric, prev, o, pts);
      if r.events != st.events {
        var d := r.events[|st.events|..];
        assert r.events == st.events + d;
        MarksAppend(st.events, d, green);
        Chunks(Lines(1, 0), o, pts[|pts| - 1], green);
      }
    }
  }

  /** What the `while (true)` loop of `Jarvis` adds after a given round: the new hull points and
   * the candidate that stopped it. */
  datatype Tail = Tail(added: seq<Point>, final: Point)

  /** The points not yet on the hull: the loop ends before this set runs out. */
  function Unvisited(points: seq<Point>, hull: seq<Point>): set<Point> {
    set p | p in points && p !in hull
  }

  /** Adding a point not yet on the hull removes it from the unvisited points. */
  lemma UnvisitedShrinks(points: seq<Point>, hull: seq<Point>, p: Point)
    requires p in points && p !in hull
    ensures Unvisited(points, hull + [p]) < Unvisited(points, hull)
  {
    assert p in Unvisited(points, hull) && p !in Unvisited(points, hull + [p]);
  }

  /** The rounds of `Jarvis` from origin `o` reached after `prev`, with `hull` built so far: each
   * round asks `findNextOrigin` for a candidate and stops at the first one already on the hull. */
  function Wrap(metric: Metric, points: seq<Point>, prev: Point, o: Point, hull: seq<Point>): (r: Result<Tail>)
    requires AngleAtMost360(metric)
    requires |hull| > 0 && hull[|hull| - 1] == o && prev != o
    decreases Unvisited(points, hull)
    ensures r.Ok? ==> forall p :: p in r.value.added ==> p in points && p !in hull
    ensures r.Ok? ==> r.value.final in hull + r.value.added
    ensures ThreeDifferent(points) && r.Err? ==> r.fault == NullBestPoint
  {
    match NextOrigin(metric, prev, o, points)
    case Err(f) => Err(f)
    case Ok(next) =>
      if next in hull then Ok(Tail([], next))
      else
        UnvisitedShrinks(points, hull, next);
        match Wrap(metric, points, o, next, hull + [next])
        case Err(f) => Err(f)
        case Ok(rest) =>
          Regroup(hull, [next], rest.added);
          Ok(Tail([next] + rest.added, rest.final))
  }

  /** The loop pushes only points not yet on the hull, so a hull without repetition keeps none. */
  lemma {:induction false} WrapDistinct(metric: Metric, points: seq<Point>, prev: Point, o: Point, hull: seq<Point>)
    requires AngleAtMost360(metric)
    requires |hull| > 0 && hull[|hull| - 1] == o && prev != o
    requires Distinct(hull)
    decreases Unvisited(points, hull)
    ensures var r := Wrap(metric, points, prev, o, hull); r.Ok? ==> Distinct(hull + r.value.added)
  {
    var r := Wrap(metric, points, prev, o, hull);
    var n := NextOrigin(metric, prev, o, points);
    if r.Ok? && n.Ok? && n.value !in hull {
      var next := n.value;
      UnvisitedShrinks(points, hull, next);
      var rest := Wrap(metric, points, o, next, hull + [next]);
      assert Distinct(hull + [next]) by {
        forall i | 0 <= i < |hull| ensures (hull + [next])[i] != next {
          assert hull[i] in hull;
        }
      }
      WrapDistinct(metric, points, o, next, hull + [next]);
      assert hull + r.value.added == hull + [next] + rest.value.added;
    } else if r.Ok? {
      assert hull + r.value.added == hull;
    }
  }

  /**
   * Along `[prev, o] + added`, each added point, and then `final`, is the candidate of the round
   * from the two points before it.
   */
  predicate Chained(metric: Metric, points: seq<Point>, prev: Point, o: Point, added: seq<Point>, final: Point)
    requires AngleAtMost360(metric)
  {
    var c := [prev, o] + added;
    (forall i :: 0 <= i < |added| ==> NextOrigin(metric, c[i], c[i + 1], points) == Ok(added[i])) &&
    NextOrigin(metric, c[|c| - 2], c[|c| - 1], points) == Ok(final)
  }

  /** A round from `o` after `prev` that yields `next` extends a chain from `next` after `o`. */
  lemma ChainedCons(metric: Metric, points: seq<Point>, prev: Point, o: Point, next: Point, added: seq<Point>, final: Point)
    requires AngleAtMost360(metric)
    requires NextOrigin(metric, prev, o, points) == Ok(next)
    requires Chained(metric, points, o, next, added, final)
    ensures Chained(metric, points, prev, o, [next] + added, final)
  {
    var c, c' := [prev, o] + ([next] + added), [o, next] + added;
    assert forall i :: 0 < i < |c| ==> c[i] == c'[i - 1];
  }

  /**
   * Every round after the first takes the previous origin as `prev_o`: each added point, and the
   * candidate that closes the hull, is what `findNextOrigin` returns from the two points before it.
   */
  lemma {:induction false} WrapChain(metric: Metric, points: seq<Point>, prev: Point, o: Point, hull: seq<Point>)
    requires AngleAtMost360(metric)
    requires |hull| > 0 && hull[|hull| - 1] == o && prev != o
    decreases Unvisited(points, hull)
    ensures var r := Wrap(metric, points, prev, o, hull);
      r.Ok? ==> Chained(metric, points, prev, o, r.value.added, r.value.final)
  {
    var r := Wrap(metric, points, prev, o, hull);
    var n := NextOrigin(metric, prev, o, points);
    if r.Ok? && n.Ok? {
      var next := n.value;
      if next !in hull {
        UnvisitedShrinks(points, hull, next);
        var rest := Wrap(metric, points, o, next, hull + [next]);
        WrapChain(metric, points, o, next, hull + [next]);
        assert r.value == Tail([next] + rest.value.added, rest.value.final);
        ChainedCons(metric, points, prev, o, next, rest.value.added, rest.value.final);
      } else {
        assert r.value == Tail([], next);
        assert [prev, o] + [] == [prev, o];
      }
    }
  }

  /**
   * The actions of one round of the loop: those of `findNextOrigin`, the origin marked as a hull
   * point, then the candidate marked as a hull point when it closes the hull or as the new origin.
   */
  function RoundEvents(metric: Metric, points: seq<Point>, prev: Point, o: Point, next: Point, closes: bool): seq<Action>
    requires AngleAtMost360(metric)
  {
    Scan(metric, prev, o, points).events + [Ccg(o), if closes then Ccg(next) else Ccb(next)]
  }

  /** The actions of the rounds that do not close the hull, along `c`: the starting `prev_o`, then
   * the origins in order (round `i` runs from `c[i + 1]` after `c[i]` and yields `c[i + 2]`). */
  function OpenRounds(metric: Metric, points: seq<Point>, c: seq<Point>): seq<Action>
    requires AngleAtMost360(metric)
  {
    if |c| < 3 then []
    else OpenRounds(metric, points, c[..|c| - 1]) + RoundEvents(metric, points, c[|c| - 3], c[|c| - 2], c[|c| - 1], false)
  }

  /** One round leaves one more solid line and no dashed line; it marks its origin as a hull point,
   * and its candidate as a hull point if it closes the hull and as the next origin otherwise. */
  lemma RoundEffects(metric: Metric, points: seq<Point>, prev: Point, o: Point, next: Point, closes: bool, s: nat, green: bool)
    requires AngleAtMost360(metric) && Scan(metric, prev, o, points).best.Some?
    ensures Replay(Lines(s, 0), RoundEvents(metric, points, prev, o, next, closes)) == Some(Lines(s + 1, 0))
    ensures Marks(RoundEvents(metric, points, prev, o, next, closes), green) ==
      if green then [o] + (if closes then [next] else []) else (if closes then [] else [next])
  {
    var scan := Scan(metric, prev, o, points);
    var two := [Ccg(o), if closes then Ccg(next) else Ccb(next)];
    ScanLines(metric, prev, o, points, s);
    ScanMarksNothing(metric, prev, o, points, green);
    MarkPair(Lines(s + 1, 0), o, two[1]);
    assert two == [Ccg(o), two[1]];
    ReplayAppend(Lines(s, 0), scan.events, two, Lines(s + 1, 0));
    MarksAppend(scan.events, two, green);
  }

  /** The two marks that end a round: the origin, then the candidate. */
  lemma MarkPair(m: Lines, o: Point, e: Action)
    requires e.Ccg? || e.Ccb?
    ensures Replay(m, [Ccg(o), e]) == Some(m)
    ensures Marks([Ccg(o), e], true) == [o] + (if e.Ccg? then [e.p] else [])
    ensures Marks([Ccg(o), e], false) == (if e.Ccb? then [e.p] else [])
  {
    assert [Ccg(o), e][..1] == [Ccg(o)] && [Ccg(o)][..0] == [];
    assert Replay(m, [Ccg(o)]) == Some(m);
    assert Marks([Ccg(o)], true) == [o] && Marks([Ccg(o)], false) == [];
  }

  /** Every round along `c` (round `i` runs from `c[i + 1]` after `c[i]`) finds a candidate. */
  predicate Found(metric: Metric, points: seq<Point>, c: seq<Point>)
    requires AngleAtMost360(metric)
  {
    forall i {:trigger Scan(metric, c[i], c[i + 1], points)} ::
      0 <= i < |c| - 1 ==> Scan(metric, c[i], c[i + 1], points).best.Some?
  }

  /** The rounds along a prefix of `c` find a candidate when those along `c` do. */
  lemma FoundInit(metric: Metric, points: seq<Point>, c: seq<Point>)
    requires AngleAtMost360(metric) && |c| > 0 && Found(metric, points, c)
    ensures Found(metric, points, c[..|c| - 1])
  {
    var init := c[..|c| - 1];
    forall i | 0 <= i < |init| - 1 ensures Scan(metric, init[i], init[i + 1], points).best.Some? {
      assert init[i] == c[i] && init[i + 1] == c[i + 1];
    }
  }

  /** The round from `c[i + 1]` after `c[i]` finds a candidate. */
  lemma FoundAt(metric: Metric, points: seq<Point>, c: seq<Point>, i: nat)
    requires AngleAtMost360(metric) && Found(metric, points, c) && i < |c| - 1
    ensures Scan(metric, c[i], c[i + 1], points).best.Some?
  {
  }

  /** The rounds that do not close the hull leave one solid line each and no dashed line. */
  lemma {:induction false} OpenRoundsLines(metric: Metric, points: seq<Point>, c: seq<Point>, s: nat)
    requires AngleAtMost360(metric) && |c| >= 2 && Found(metric, points, c)
    ensures Replay(Lines(s, 0), OpenRounds(metric, points, c)) == Some(Lines(s + |c| - 2, 0))
  {
    if |c| >= 3 {
      var init := c[..|c| - 1];
      var k := |c| - 3;
      var prev, o, next := c[k], c[k + 1], c[|c| - 1];
      var a, b := OpenRounds(metric, points, init), RoundEvents(metric, points, prev, o, next, false);
      assert OpenRounds(metric, points, c) == a + b;
      FoundInit(metric, points, c);
      FoundAt(metric, points, c, k);
      var n: nat := s + |init| - 2;
      OpenRoundsLines(metric, points, init, s);
      RoundEffects(metric, points, prev, o, next, false, n, true);
      ReplayAppend(Lines(s, 0), a, b, Lines(n, 0));
      assert n + 1 == s + |c| - 2;
    } else {
      assert OpenRounds(metric, points, c) == [];
    }
  }

  /** The rounds that do not close the hull mark every origin but the first as the next origin, and
   * every origin but the last as a hull point. */
  lemma {:induction false} OpenRoundsMarks(metric: Metric, points: seq<Point>, c: seq<Point>, green: bool)
    requires AngleAtMost360(metric) && |c| >= 2 && Found(metric, points, c)
    ensures Marks(OpenRounds(metric, points, c), green) == if green then c[1..|c| - 1] else c[2..]
  {
    if |c| >= 3 {
      var init := c[..|c| - 1];
      var k := |c| - 3;
      var prev, o, next := c[k], c[k + 1], c[|c| - 1];
      FoundInit(metric, points, c);
      FoundAt(metric, points, c, k);
      var a := OpenRounds(metric, points, init);
      var b := RoundEvents(metric, points, prev, o, next, false);
      assert OpenRounds(metric, points, c) == a + b;
      OpenRoundsMarks(metric, points, init, green);
      RoundEffects(metric, points, prev, o, next, false, 0, green);
      MarksAppend(a, b, green);
      SnocSlices(c);
    } else {
      assert c[1..|c| - 1] == [] && c[2..] == [];
    }
  }

  /** The origin the first loop of `Jarvis` settles on: the sentinel, replaced by every point lower than it. */
  function Lowest(points: seq<Point>): (r: Point) {
    if points == [] then Point(MaxSafeInteger, MaxSafeInteger)
    else
      var o := Lowest(points[..|points| - 1]);
      if o.y > points[|points| - 1].y then points[|points| - 1] else o
  }

  /** `points[j]` has the least y, and every point listed before it lies strictly higher. */
  predicate FirstLowestAt(points: seq<Point>, j: int) {
    0 <= j < |points| &&
    (forall i :: 0 <= i < j ==> points[i].y > points[j].y) &&
    (forall i :: j <= i < |points| ==> points[i].y >= points[j].y)
  }

  /** The starting origin is the first point of least y, or the sentinel when no point lies below it. */
  lemma {:induction false} LowestIsFirstMinimum(points: seq<Point>)
    ensures var r := Lowest(points);
      ((exists i :: 0 <= i < |points| && points[i].y < MaxSafeInteger) ==>
        exists j :: FirstLowestAt(points, j) && points[j] == r) &&
      ((forall i :: 0 <= i < |points| ==> points[i].y >= MaxSafeInteger) ==>
        r == Point(MaxSafeInteger, MaxSafeInteger))
  {
    if points != [] {
      var n := |points| - 1;
      var init, p := points[..n], points[n];
      LowestIsFirstMinimum(init);
      var o := Lowest(init);
      var r := Lowest(points);
      assert forall i :: 0 <= i < n ==> points[i] == init[i];
      if exists i :: 0 <= i < n && init[i].y < MaxSafeInteger {
        var j :| FirstLowestAt(init, j) && init[j] == o;
        if o.y > p.y {
          assert r == p;
          assert FirstLowestAt(points, n);
        } else {
          assert r == o;
          assert FirstLowestAt(points, j);
        }
      } else if p.y < MaxSafeInteger {
        assert o == Point(MaxSafeInteger, MaxSafeInteger) && r == p;
        assert FirstLowestAt(points, n);
      } else {
        assert forall i :: 0 <= i < |points| ==> points[i].y >= MaxSafeInteger;
      }
    }
  }

  /** `prev_o` for the first round: the origin nudged right by 0.001. */
  function StartPrev(origin: Point): Point {
    Point(origin.x + 0.001, origin.y)
  }

  /** The outcome of `Jarvis`: the hull, the candidate that closed it, and the actions pushed. */
  datatype March = March(hull: seq<Point>, final: Point, trace: seq<Action>)

  /** The actions of a run that found `hull` and stopped at `final`: the first origin marked, the
   * rounds that grew the hull, then the round that closed it. */
  function Trace(metric: Metric, points: seq<Point>, hull: seq<Point>, final: Point): seq<Action>
    requires AngleAtMost360(metric) && |hull| > 0
  {
    var c := [StartPrev(hull[0])] + hull;
    [Ccb(hull[0])] + OpenRounds(metric, points, c) +
      RoundEvents(metric, points, c[|c| - 2], c[|c| - 1], final, true)
  }

  /** What `Jarvis` computes, as a value, or the exception one of its rounds throws. */
  function JarvisMarch(metric: Metric, points: seq<Point>): (r: Result<March>)
    requires AngleAtMost360(metric)
    ensures r.Ok? ==> |r.value.hull| >= 2 && r.value.hull[0] == Lowest(points) && Distinct(r.value.hull)
    ensures r.Ok? ==> forall i :: 1 <= i < |r.value.hull| ==> r.value.hull[i] in points
    ensures r.Ok? ==> r.value.final in r.value.hull
    ensures ThreeDifferent(points) && r.Err? ==> r.fault == NullBestPoint
  {
    var origin := Lowest(points);
    match Wrap(metric, points, StartPrev(origin), origin, [origin])
    case Err(f) => Err(f)
    case Ok(w) =>
      WrapDistinct(metric, points, StartPrev(origin), origin, [origin]);
      assert |w.added| > 0 by {
        assert NextOrigin(metric, StartPrev(origin), origin, points).Ok?;
      }
      var hull := [origin] + w.added;
      Ok(March(hull, w.final, Trace(metric, points, hull, w.final)))
  }

  /**
   * In a run that completes, each hull point after the first, and the point that closes the hull,
   * is what `findNextOrigin` returns from the two points before it (the first round after the origin
   * nudged right).
   */
  lemma MarchFollowsNextOrigin(metric: Metric, points: seq<Point>)
    requires AngleAtMost360(metric) && JarvisMarch(metric, points).Ok?
    ensures var r := JarvisMarch(metric, points).value;
      NextOrigin(metric, StartPrev(r.hull[0]), r.hull[0], points) == Ok(r.hull[1]) &&
      (forall i :: 1 <= i < |r.hull| - 1 ==> NextOrigin(metric, r.hull[i - 1], r.hull[i], points) == Ok(r.hull[i + 1])) &&
      NextOrigin(metric, r.hull[|r.hull| - 2], r.hull[|r.hull| - 1], points) == Ok(r.final)
    ensures var r := JarvisMarch(metric, points).value;
      Found(metric, points, [StartPrev(r.hull[0])] + r.hull)
  {
    var origin := Lowest(points);
    MarchOfWrap(metric, points);
    var w := Wrap(metric, points, StartPrev(origin), origin, [origin]).value;
    WrapChain(metric, points, StartPrev(origin), origin, [origin]);
    ChainShift(metric, points, StartPrev(origin), origin, w.added, w.final);
  }

  /** A run that completes is the rounds of `Wrap` from the lowest point. */
  lemma MarchOfWrap(metric: Metric, points: seq<Point>)
    requires AngleAtMost360(metric) && JarvisMarch(metric, points).Ok?
    ensures var origin := Lowest(points);
      var w := Wrap(metric, points, StartPrev(origin), origin, [origin]);
      w.Ok? && |w.value.added| > 0 &&
      JarvisMarch(metric, points).value.hull == [origin] + w.value.added &&
      JarvisMarch(metric, points).value.final == w.value.final
  {
  }

  /** Rounds along `h` that each return the next point of `h` (and `final` last) all find a candidate. */
  lemma ChainFound(metric: Metric, points: seq<Point>, prev: Point, h: seq<Point>, final: Point)
    requires AngleAtMost360(metric) && |h| >= 2
    requires NextOrigin(metric, prev, h[0], points) == Ok(h[1])
    requires forall i :: 1 <= i < |h| - 1 ==> NextOrigin(metric, h[i - 1], h[i], points) == Ok(h[i + 1])
    requires NextOrigin(metric, h[|h| - 2], h[|h| - 1], points) == Ok(final)
    ensures Found(metric, points, [prev] + h)
  {
    var c := [prev] + h;
    forall i | 0 <= i < |c| - 1 ensures Scan(metric, c[i], c[i + 1], points).best.Some? {
      if i == 0 {
        assert c[1] == h[0];
      } else if i < |c| - 2 {
        var k := i;
        assert 1 <= k < |h| - 1;
        assert NextOrigin(metric, h[k - 1], h[k], points) == Ok(h[k + 1]);
        assert c[i] == h[i - 1] && c[i + 1] == h[i];
      } else {
        assert c[i] == h[|h| - 2] && c[i + 1] == h[|h| - 1];
      }
    }
  }

  /**
   * A run completes only on three different points: its closing candidate is an input point
   * eligible after the last two hull points, so it differs from both. On fewer, some round's
   * candidate is null and `Jarvis` throws.
   */
  lemma MarchNeedsThree(metric: Metric, points: seq<Point>)
    requires AngleAtMost360(metric) && JarvisMarch(metric, points).Ok?
    ensures ThreeDifferent(points)
  {
    var r := JarvisMarch(metric, points).value;
    MarchFollowsNextOrigin(metric, points);
    var h, n := r.hull, |r.hull|;
    var a, b, c := h[n - 2], h[n - 1], r.final;
    assert NextOrigin(metric, a, b, points) == Ok(c);
    var i :| 0 <= i < n && h[i] == c;
    assert i < n - 2 && a in points && b in points;
    ThreeMembers(points, a, b, c);
  }

  /** Three different members make three different points. */
  lemma ThreeMembers(points: seq<Point>, a: Point, b: Point, c: Point)
    requires a in points && b in points && c in points
    requires a != b && b != c && a != c
    ensures ThreeDifferent(points)
  {
    assert {a, b, c} <= set p | p in points;
    assert |{a, b, c}| == 3;
    SubsetCard({a, b, c}, set p | p in points);
  }

  /** `WrapChain` read along the hull `[o] + added` instead of `[prev, o] + added`. */
  lemma ChainShift(metric: Metric, points: seq<Point>, prev: Point, o: Point, added: seq<Point>, final: Point)
    requires AngleAtMost360(metric) && |added| > 0
    requires Chained(metric, points, prev, o, added, final)
    ensures var h := [o] + added;
      NextOrigin(metric, prev, h[0], points) == Ok(h[1]) &&
      (forall i :: 1 <= i < |h| - 1 ==> NextOrigin(metric, h[i - 1], h[i], points) == Ok(h[i + 1])) &&
      NextOrigin(metric, h[|h| - 2], h[|h| - 1], points) == Ok(final)
    ensures Found(metric, points, [prev] + ([o] + added))
  {
    var c, h := [prev, o] + added, [o] + added;
    assert forall i :: 0 <= i < |h| ==> h[i] == c[i + 1];
    forall i | 1 <= i < |h| - 1
      ensures NextOrigin(metric, h[i - 1], h[i], points) == Ok(h[i + 1])
    {
      assert h[i + 1] == added[i] && c[i] == h[i - 1] && c[i + 1] == h[i];
    }
    assert h[1] == added[0] && c[0] == prev && c[1] == h[0];
    assert c[|c| - 2] == h[|h| - 2] && c[|c| - 1] == h[|h| - 1];
    ChainFound(metric, points, prev, h, final);
  }

  /**
   * The lines the actions of a run leave when every round finds a candidate (as in every run that
   * completes, `MarchFollowsNextOrigin`): every "rsl" finds a solid line, and what stays on screen
   * is one solid line per round (the hull edges, `|hull|` in all) and no dashed line.
   */
  lemma TraceLines(metric: Metric, points: seq<Point>, hull: seq<Point>, final: Point)
    requires AngleAtMost360(metric) && |hull| > 0 && Found(metric, points, [StartPrev(hull[0])] + hull)
    ensures Replay(Lines(0, 0), Trace(metric, points, hull, final)) == Some(Lines(|hull|, 0))
  {
    var c := [StartPrev(hull[0])] + hull;
    var open := OpenRounds(metric, points, c);
    var last := RoundEvents(metric, points, c[|c| - 2], c[|c| - 1], final, true);
    var first := [Ccb(hull[0])];
    assert first[..0] == [];
    assert Replay(Lines(0, 0), first) == Some(Lines(0, 0));
    OpenRoundsLines(metric, points, c, 0);
    ReplayAppend(Lines(0, 0), first, open, Lines(0, 0));
    FoundAt(metric, points, c, |c| - 2);
    RoundEffects(metric, points, c[|c| - 2], c[|c| - 1], final, true, |c| - 2, false);
    ReplayAppend(Lines(0, 0), first + open, last, Lines(|c| - 2, 0));
  }

  /** The first action of a run marks the first origin in blue. */
  lemma FirstMark(p: Point, green: bool)
    ensures Marks([Ccb(p)], green) == if green then [] else [p]
  {
    assert [Ccb(p)][..0] == [];
  }

  /** The points a run marks in green: the hull in order, followed by the point that closed it. */
  lemma TraceGreenMarks(metric: Metric, points: seq<Point>, hull: seq<Point>, final: Point)
    requires AngleAtMost360(metric) && |hull| > 0 && Found(metric, points, [StartPrev(hull[0])] + hull)
    ensures Marks(Trace(metric, points, hull, final), true) == hull + [final]
  {
    var c := [StartPrev(hull[0])] + hull;
    var open := OpenRounds(metric, points, c);
    var last := RoundEvents(metric, points, c[|c| - 2], c[|c| - 1], final, true);
    var first := [Ccb(hull[0])];
    assert Trace(metric, points, hull, final) == first + open + last;
    FirstMark(hull[0], true);
    FoundAt(metric, points, c, |c| - 2);
    RoundEffects(metric, points, c[|c| - 2], c[|c| - 1], final, true, 0, true);
    OpenRoundsMarks(metric, points, c, true);
    MarksAppend(first, open, true);
    MarksAppend(first + open, last, true);
    assert Marks(first + open, true) == c[1..|c| - 1];
    assert Marks(last, true) == [c[|c| - 1]] + [final];
    ConsSlices(StartPrev(hull[0]), hull, final);
  }

  /** The points a run marks in blue: the hull in order. */
  lemma TraceBlueMarks(metric: Metric, points: seq<Point>, hull: seq<Point>, final: Point)
    requires AngleAtMost360(metric) && |hull| > 0 && Found(metric, points, [StartPrev(hull[0])] + hull)
    ensures Marks(Trace(metric, points, hull, final), false) == hull
  {
    var c := [StartPrev(hull[0])] + hull;
    var open := OpenRounds(metric, points, c);
    var last := RoundEvents(metric, points, c[|c| - 2], c[|c| - 1], final, true);
    var first := [Ccb(hull[0])];
    assert Trace(metric, points, hull, final) == first + open + last;
    FirstMark(hull[0], false);
    FoundAt(metric, points, c, |c| - 2);
    RoundEffects(metric, points, c[|c| - 2], c[|c| - 1], final, true, 0, false);
    OpenRoundsMarks(metric, points, c, false);
    MarksAppend(first, open, false);
    MarksAppend(first + open, last, false);
    assert Marks(first + open, false) == [hull[0]] + c[2..];
    assert Marks(last, false) == [];
    ConsSlices(StartPrev(hull[0]), hull, final);
  }

  /**
   * The state of `Jarvis` at the top of its `while (true)` loop: `hull` built so far with `o` last
   * and `prev` before it (the nudged origin in the first round), `done` the actions pushed so far,
   * and what the remaining rounds add completing the run `m`, or throwing when `m` does.
   */
  ghost predicate Rounds(metric: Metric, points: seq<Point>, m: Result<March>, start: Point, prev: Point, o: Point,
                         hull: seq<Point>, done: seq<Action>)
    requires AngleAtMost360(metric)
  {
    |hull| > 0 && hull[|hull| - 1] == o && prev != o && prev == ([start] + hull)[|hull| - 1] &&
    start == StartPrev(hull[0]) &&
    done == [Ccb(hull[0])] + OpenRounds(metric, points, [start] + hull) &&
    var w := Wrap(metric, points, prev, o, hull);
    (w.Err? ==> m == Err(w.fault)) &&
    (w.Ok? ==> m.Ok? && hull + w.value.added == m.value.hull && w.value.final == m.value.final)
  }

  /** The loop is entered with the lowest point as the hull and its first mark as the actions. */
  lemma RoundsStart(metric: Metric, points: seq<Point>)
    requires AngleAtMost360(metric)
    ensures var o := Lowest(points);
      Rounds(metric, points, JarvisMarch(metric, points), StartPrev(o), StartPrev(o), o, [o], [Ccb(o)])
  {
    var o := Lowest(points);
    assert ([StartPrev(o)] + [o])[..1] == [StartPrev(o)];
  }

  /** A round whose candidate is not on the hull pushes it and continues from it. */
  lemma RoundsAdvance(metric: Metric, points: seq<Point>, m: Result<March>, start: Point, prev: Point, o: Point,
                      hull: seq<Point>, done: seq<Action>, next: Point)
    requires AngleAtMost360(metric)
    requires Rounds(metric, points, m, start, prev, o, hull, done)
    requires NextOrigin(metric, prev, o, points) == Ok(next) && next !in hull
    ensures next in points && Unvisited(points, hull + [next]) < Unvisited(points, hull)
    ensures Rounds(metric, points, m, start, o, next, hull + [next], done + RoundEvents(metric, points, prev, o, next, false))
  {
    UnvisitedShrinks(points, hull, next);
    var c := [start] + hull;
    assert (c + [next])[..|c|] == c;
    assert [start] + (hull + [next]) == c + [next];
    Regroup([Ccb(hull[0])], OpenRounds(metric, points, c), RoundEvents(metric, points, prev, o, next, false));
    var rest := Wrap(metric, points, o, next, hull + [next]);
    if rest.Ok? {
      Regroup(hull, [next], rest.value.added);
    }
  }

  /** A round whose candidate is already on the hull ends the run. */
  lemma RoundsClose(metric: Metric, points: seq<Point>, m: Result<March>, start: Point, prev: Point, o: Point,
                    hull: seq<Point>, done: seq<Action>, next: Point)
    requires AngleAtMost360(metric)
    requires m == JarvisMarch(metric, points)
    requires Rounds(metric, points, m, start, prev, o, hull, done)
    requires NextOrigin(metric, prev, o, points) == Ok(next) && next in hull
    ensures m.Ok? && hull == m.value.hull && next == m.value.final
    ensures done + RoundEvents(metric, points, prev, o, next, true) == m.value.trace
  {
  }

  /** A round whose `findNextOrigin` throws ends the run with that exception. */
  lemma RoundsThrow(metric: Metric, points: seq<Point>, m: Result<March>, start: Point, prev: Point, o: Point,
                    hull: seq<Point>, done: seq<Action>)
    requires AngleAtMost360(metric)
    requires Rounds(metric, points, m, start, prev, o, hull, done)
    requires NextOrigin(metric, prev, o, points).Err?
    ensures m == Err(NextOrigin(metric, prev, o, points).fault)
  {
  }

  /** The actions one round pushes, in order. */
  lemma RoundPushes(action: seq<Action>, done: seq<Action>, emitted: seq<Action>, a: Action, b: Action)
    ensures action + done + emitted + [a] + [b] == action + (done + (emitted + [a, b]))
  {
  }

  /** The first loop of `Jarvis`: keeps the sentinel until a point lies strictly lower. */
  method FindLowest(points: seq<Point>) returns (origin: Point)
    ensures origin == Lowest(points)
  {
    origin := Point(MaxSafeInteger, MaxSafeInteger);
    var i := 0;
    while i < |points|
      invariant 0 <= i <= |points|
      invariant origin == Lowest(points[..i])
    {
      assert points[..i + 1][..i] == points[..i];
      if origin.y > points[i].y {
        origin := points[i];
      }
      i := i + 1;
    }
    assert points[..i] == points;
  }

  /**
   * `Jarvis`: returns the hull, or throws; the caller's `hullpoints` and `action` arrays receive the
   * same points and the actions, appended.
   */
  method Jarvis(points: seq<Point>, hullpoints: seq<Point>, action: seq<Action>, metric: Metric)
    returns (result: Result<seq<Point>>, hullpoints': seq<Point>, action': seq<Action>)
    requires AngleAtMost360(metric)
    ensures var m := JarvisMarch(metric, points);
      m.Ok? ==> result == Ok(m.value.hull) && hullpoints' == hullpoints + m.value.hull && action' == action + m.value.trace
    ensures var m := JarvisMarch(metric, points); m.Err? ==> result == Err(m.fault)
    ensures hullpoints <= hullpoints' && action <= action'
  {
    var hull := [];
    var origin := FindLowest(points);
    action' := action + [Ccb(origin)];
    var prev := StartPrev(origin);
    hull := hull + [origin];
    hullpoints' := hullpoints + [origin];
    ghost var start := prev;
    ghost var m := JarvisMarch(metric, points);
    ghost var done := [Ccb(origin)];
    RoundsStart(metric, points);
    assert hull == [origin];
    while true
      invariant Rounds(metric, points, m, start, prev, origin, hull, done)
      invariant hullpoints' == hullpoints + hull
      invariant action' == action + done
      decreases Unvisited(points, hull)
    {
      var candidate, emitted := FindNextOrigin(prev, origin, points, metric);
      action' := action' + emitted;
      if candidate.Err? {
        RoundsThrow(metric, points, m, start, prev, origin, hull, done);
        return Err(candidate.fault), hullpoints', action';
      }
      action' := action' + [Ccg(origin)];
      if candidate.value.None? {
        RoundsThrow(metric, points, m, start, prev, origin, hull, done);
        return Err(NullCandidate), hullpoints', action';
      }
      ghost var next := NextOrigin(metric, prev, origin, points).value;
      var c := candidate.value.value;
      if exists k :: 0 <= k < |hull| && ShallowEqual(hull[k], c) {
        action' := action' + [Ccg(c)];
        RoundPushes(action, done, emitted, Ccg(origin), Ccg(next));
        RoundsClose(metric, points, m, start, prev, origin, hull, done, next);
        break;
      } else {
        action' := action' + [Ccb(c)];
      }
      RoundPushes(action, done, emitted, Ccg(origin), Ccb(next));
      RoundsAdvance(metric, points, m, start, prev, origin, hull, done, next);
      done := done + RoundEvents(metric, points, prev, origin, next, false);
      hull := hull + [c];
      hullpoints' := hullpoints' + [c];
      prev := origin;
      origin := c;
    }
    result := Ok(hull);
  }
}
