/**
 * `connect`, `getUpperHull` and `convexHull` step by step: each method runs the loops of the
 * source over local variables and the `actions`, `leftarr` and `rightarr` arrays (passed in and
 * handed back with the new entries appended), and its postcondition ties the outcome to the
 * function of `UpperHull` that specifies it.
 */
module HullLoops {
  import opened Seqs
  import opened Geometry
  import opened OrderedSet
  import opened Outcomes
  import opened Sorting
  import opened KpsTrace
  import opened Bridge
  import opened BridgeLoops
  import opened UpperHull

  /** One more point read by the loop that fills `small`. */
  lemma SmallStep(s: seq<Point>, left: Point, i: int)
    requires 0 <= i < |s|
    ensures var before := AddAll([left], LeftOf(s[..i], left.x));
      AddAll([left], LeftOf(s[..i + 1], left.x)) == if s[i].x < left.x then SetAdd(before, s[i]) else before
  {
    assert s[..i + 1][..i] == s[..i];
    if s[i].x < left.x {
      AddAllSnoc([left], LeftOf(s[..i], left.x), s[i]);
    }
  }

  /** The loop that adds to `small` (holding the bridge's left end) the points left of it. */
  method SmallSet(s: seq<Point>, left: Point) returns (small: seq<Point>)
    ensures small == AddAll([left], LeftOf(s, left.x))
  {
    small := [left];
    for i := 0 to |s|
      invariant small == AddAll([left], LeftOf(s[..i], left.x))
    {
      SmallStep(s, left, i);
      if s[i].x < left.x {
        small := SetAdd(small, s[i]);
      }
    }
    assert s[..|s|] == s;
  }

  /** One more point read by the loop that fills `large`. */
  lemma LargeStep(s: seq<Point>, right: Point, i: int)
    requires 0 <= i < |s|
    ensures var before := AddAll([right], RightOf(s[..i], right.x));
      AddAll([right], RightOf(s[..i + 1], right.x)) == if s[i].x > right.x then SetAdd(before, s[i]) else before
  {
    assert s[..i + 1][..i] == s[..i];
    if s[i].x > right.x {
      AddAllSnoc([right], RightOf(s[..i], right.x), s[i]);
    }
  }

  /** The loop that adds to `large` (holding the bridge's right end) the points right of it. */
  method LargeSet(s: seq<Point>, right: Point) returns (large: seq<Point>)
    ensures large == AddAll([right], RightOf(s, right.x))
  {
    large := [right];
    for i := 0 to |s|
      invariant large == AddAll([right], RightOf(s[..i], right.x))
    {
      LargeStep(s, right, i);
      if s[i].x > right.x {
        large := SetAdd(large, s[i]);
      }
    }
    assert s[..|s|] == s;
  }

  /** The two loops that fill `smalllarge` from `small` and then from `large`. */
  method Union(small: seq<Point>, large: seq<Point>) returns (both: seq<Point>)
    requires Distinct(small)
    ensures both == AddAll(small, large)
  {
    both := [];
    for i := 0 to |small|
      invariant both == AddAll([], small[..i])
    {
      AddAllPrefix([], small, i);
      both := SetAdd(both, small[i]);
    }
    assert small[..|small|] == small;
    DedupDistinct(small);
    for i := 0 to |large|
      invariant both == AddAll(small, large[..i])
    {
      AddAllPrefix(small, large, i);
      both := SetAdd(both, large[i]);
    }
    assert large[..|large|] == large;
  }

  /** One more point read by the loop that builds a "hidp" payload. */
  lemma HiddenStep(flp: bool, s: seq<Point>, keep: seq<Point>, i: int)
    requires 0 <= i < |s|
    ensures var before := ShowAll(flp, Outside(s[..i], keep));
      ShowAll(flp, Outside(s[..i + 1], keep)) == if s[i] !in keep then before + [Show(flp, s[i])] else before
  {
    var o := Outside(s[..i], keep);
    assert s[..i + 1][..i] == s[..i];
    if s[i] !in keep {
      var a, b := ShowAll(flp, o + [s[i]]), ShowAll(flp, o) + [Show(flp, s[i])];
      assert |a| == |b|;
      forall k | 0 <= k < |a| ensures a[k] == b[k] {
        if k < |o| {
          assert (o + [s[i]])[k] == o[k];
        }
      }
    }
  }

  /** The loop that collects, in order and reflected back when `flp`, the points of `s` not in `keep`. */
  method Hidden(flp: bool, s: seq<Point>, keep: seq<Point>) returns (hidp: seq<Point>)
    ensures hidp == ShowAll(flp, Outside(s, keep))
  {
    hidp := [];
    for i := 0 to |s|
      invariant hidp == ShowAll(flp, Outside(s[..i], keep))
    {
      HiddenStep(flp, s, keep, i);
      if s[i] !in keep {
        hidp := hidp + [Show(flp, s[i])];
      }
    }
    assert s[..|s|] == s;
  }

  /**
   * The two `quickselect` calls of `connect`: the first sorts a copy of the points in (x, then y)
   * order, the second finds them sorted already; they return the two middle points.
   */
  method MiddlePoints(points: seq<Point>) returns (sorted: seq<Point>, leftMax: Point, rightMin: Point)
    requires |points| >= 2
    ensures sorted == SortLex(points)
    ensures leftMax == sorted[|points| / 2 - 1] && rightMin == sorted[|points| / 2]
  {
    var a := new Point[|points|](i requires 0 <= i < |points| => points[i]);
    assert a[..] == points;
    leftMax := Quickselect(a, IntegerDivision(|points|, 2) - 1);
    SortLexOfSorted(a[..]);
    rightMin := Quickselect(a, IntegerDivision(|points|, 2));
    sorted := a[..];
  }

  /** `Divide` once the bridge over the sorted points is known. */
  lemma DivideFromBridge(edition: Edition, p1: Point, p2: Point, points: seq<Point>, flp: bool)
    requires Span(p1, p2, points) && p1 != p2 && |points| >= 2
    ensures var sorted := SortLex(points);
      var median := MedianX(sorted);
      Distinct(sorted) &&
      match GetBridge(edition, sorted, median, flp)
      case Err(f) => Divide(edition, p1, p2, points, flp) == Err(f)
      case Ok(b) => var sides := SidesOf(sorted, b.left, b.right);
        Divide(edition, p1, p2, points, flp) == Ok(Division(sorted, median, b, sides, SplitEvents(flp, median, b, sorted, sides)))
  {
    SortLexDistinct(points);
  }

  /**
   * The loops of `connect` after the bridge is found: `small` and `large` from the sorted points,
   * their union `smalllarge`, and the "hidp" payload of the sorted points outside it.
   */
  method SplitSides(flp: bool, sorted: seq<Point>, left: Point, right: Point)
    returns (small: seq<Point>, large: seq<Point>, hidp: seq<Point>)
    ensures Sides(small, large) == SidesOf(sorted, left, right)
    ensures hidp == ShowAll(flp, Outside(sorted, AddAll(small, large)))
  {
    small := SmallSet(sorted, left);
    large := LargeSet(sorted, right);
    AddAllDistinct([], [left]);
    var smallLarge := Union(small, large);
    hidp := Hidden(flp, sorted, smallLarge);
  }

  /**
   * `connect` from its entry to its recursive calls: the two `quickselect` calls sort the points
   * in place and give the median x, `getBridge` finds the bridge over it, and the loops build
   * `small`, `large` and the "hidp" payload from the sorted points. The bridge ends, the two
   * sides and the records pushed are those of `Divide`.
   */
  method RunDivide(edition: Edition, p1: Point, p2: Point, points: seq<Point>, flp: bool, actions: seq<KpsAction>)
    returns (r: Result<(Point, Point, seq<Point>, seq<Point>)>, actions': seq<KpsAction>)
    requires Span(p1, p2, points) && p1 != p2
    ensures match Divide(edition, p1, p2, points, flp)
      case Ok(d) => r == Ok((d.bridge.left, d.bridge.right, d.sides.small, d.sides.large)) && actions' == actions + d.events
      case Err(f) => r == Err(f)
  {
    MedianBetween(p1, p2, points);
    SortLexDistinct(points);
    var sorted, leftMax, rightMin := MiddlePoints(points);
    var median := (leftMax.x + rightMin.x) / 2.0;
    assert median == MedianX(sorted);
    var shown := if flp then (-leftMax.x - rightMin.x) / 2.0 else median;
    assert shown == if flp then -median else median;
    var a1 := actions + [Kmedx(shown)];
    var b, a2 := RunGetBridge(edition, sorted, median, flp, a1);
    if b.Err? {
      DivideFromBridge(edition, p1, p2, points, flp);
      return Err(b.fault), a2;
    }
    var (left, right) := b.value;
    ghost var g := GetBridge(edition, sorted, median, flp).value;
    assert a2 == a1 + g.trace && left == g.left && right == g.right;
    var small, large, hidp := SplitSides(flp, sorted, left, right);
    r := Ok((left, right, small, large));
    actions' := a2 + [Radl, Dsl(Show(flp, left), Show(flp, right))] + [Hidp(hidp)];
    SplitTrace(actions, a1, a2, Kmedx(shown), g.trace, Radl, Dsl(Show(flp, left), Show(flp, right)), Hidp(hidp));
    DivideOk(edition, p1, p2, points, flp, sorted, median, g, Sides(small, large), shown, hidp);
  }

  /** `Divide` when the bridge over the sorted points is found, with the payloads the loops computed. */
  lemma DivideOk(edition: Edition, p1: Point, p2: Point, points: seq<Point>, flp: bool,
                 sorted: seq<Point>, median: real, g: Bridge, sides: Sides, shown: real, hidp: seq<Point>)
    requires Span(p1, p2, points) && p1 != p2 && |points| >= 2
    requires sorted == SortLex(points) && Distinct(sorted) && |sorted| >= 2 && median == MedianX(sorted)
    requires GetBridge(edition, sorted, median, flp) == Ok(g)
    requires sides == SidesOf(sorted, g.left, g.right)
    requires shown == (if flp then -median else median)
    requires hidp == ShowAll(flp, Outside(sorted, AddAll(sides.small, sides.large)))
    ensures Divide(edition, p1, p2, points, flp) ==
      Ok(Division(sorted, median, g, sides, [Kmedx(shown)] + g.trace + [Radl, Dsl(Show(flp, g.left), Show(flp, g.right)), Hidp(hidp)]))
  {
    SplitEventsAre(flp, median, g, sorted, sides, shown, hidp);
  }

  /** The records `SplitEvents` lists, given the "kmedx" payload and the "hidp" payload. */
  lemma SplitEventsAre(flp: bool, median: real, b: Bridge, s: seq<Point>, sides: Sides, shown: real, hidp: seq<Point>)
    requires shown == if flp then -median else median
    requires hidp == ShowAll(flp, Outside(s, AddAll(sides.small, sides.large)))
    ensures SplitEvents(flp, median, b, s, sides) ==
      [Kmedx(shown)] + b.trace + [Radl, Dsl(Show(flp, b.left), Show(flp, b.right)), Hidp(hidp)]
  {
  }

  /** A push, then appended records, then three pushes, append their concatenation. */
  lemma SplitTrace<T>(a: seq<T>, a1: seq<T>, a2: seq<T>, x: T, b: seq<T>, c0: T, c1: T, c2: T)
    requires a1 == a + [x] && a2 == a1 + b
    ensures a2 + [c0, c1] + [c2] == a + ([x] + b + [c0, c1, c2])
  {
  }

  /**
   * `connect`: a single point is marked and returned; otherwise the points are divided at the
   * bridge and the chains from `p1` to the bridge's left end and from its right end to `p2` are
   * joined. The chain and the records pushed are those of `Connect`.
   */
  method RunConnect(edition: Edition, p1: Point, p2: Point, points: seq<Point>, flp: bool, actions: seq<KpsAction>)
    returns (r: Result<seq<Point>>, actions': seq<KpsAction>)
    requires Span(p1, p2, points)
    ensures match Connect(edition, p1, p2, points, flp)
      case Ok(c) => r == Ok(c.hull) && actions' == actions + c.trace
      case Err(f) => r == Err(f)
    decreases |points|
  {
    if p1 == p2 {
      return Ok([p1]), actions + [Kagp(Show(flp, p1))];
    }
    var d, a1 := RunDivide(edition, p1, p2, points, flp, actions);
    if d.Err? {
      return Err(d.fault), a1;
    }
    var (left, right, small, large) := d.value;
    ghost var div := Divide(edition, p1, p2, points, flp).value;
    var toLeft, a2 := RunConnect(edition, p1, left, small, flp, a1);
    if toLeft.Err? {
      return Err(toLeft.fault), a2;
    }
    var fromRight, a3 := RunConnect(edition, right, p2, large, flp, a2);
    if fromRight.Err? {
      return Err(fromRight.fault), a3;
    }
    r, actions' := Ok(toLeft.value + fromRight.value), a3;
    Regroup3(actions, div.events, Connect(edition, p1, left, small, flp).value.trace,
      Connect(edition, right, p2, large, flp).value.trace);
  }

  /** The first loop for `leftMost`: the first point of least x. */
  method LeastX(points: seq<Point>) returns (m: Point)
    requires |points| > 0
    ensures m == FirstLeast(points)
  {
    m := points[0];
    for i := 1 to |points|
      invariant m == FirstLeast(points[..i])
    {
      assert points[..i + 1][..i] == points[..i];
      if points[i].x < m.x {
        m := points[i];
      }
    }
    assert points[..|points|] == points;
  }

  /** The first loop for `rightMost`: the first point of greatest x. */
  method GreatestX(points: seq<Point>) returns (m: Point)
    requires |points| > 0
    ensures m == FirstGreatest(points)
  {
    m := points[0];
    for i := 1 to |points|
      invariant m == FirstGreatest(points[..i])
    {
      assert points[..i + 1][..i] == points[..i];
      if points[i].x > m.x {
        m := points[i];
      }
    }
    assert points[..|points|] == points;
  }

  /** One more point read by the loop that pushes a column on `arr`. */
  lemma ColumnStep(points: seq<Point>, x: real, arr: seq<Point>, i: int)
    requires 0 <= i < |points|
    ensures var before := arr + Column(points[..i], x);
      arr + Column(points[..i + 1], x) == if points[i].x == x then before + [points[i]] else before
  {
    assert points[..i + 1][..i] == points[..i];
    Regroup(arr, Column(points[..i], x), [points[i]]);
  }

  /** The loop that pushes on `arr` every point whose x is `x`. */
  method PushColumn(points: seq<Point>, x: real, arr: seq<Point>) returns (arr': seq<Point>)
    ensures arr' == arr + Column(points, x)
  {
    arr' := arr;
    for i := 0 to |points|
      invariant arr' == arr + Column(points[..i], x)
    {
      ColumnStep(points, x, arr, i);
      if points[i].x == x {
        arr' := arr' + [points[i]];
      }
    }
    assert points[..|points|] == points;
  }

  /** The tie-breaking loop: the highest point straight above or below `start`. */
  method RaiseScan(points: seq<Point>, start: Point) returns (m: Point)
    ensures m == Raise(points, start)
  {
    m := start;
    for i := 0 to |points|
      invariant m == Raise(points[..i], start)
    {
      assert points[..i + 1][..i] == points[..i];
      if points[i].x == m.x && points[i].y > m.y {
        m := points[i];
      }
    }
    assert points[..|points|] == points;
  }

  /** One more point read by the loop that fills `newPoints`. */
  lemma BetweenStep(points: seq<Point>, leftMost: Point, rx: real, miny: real, i: int)
    requires 0 <= i < |points|
    ensures var before := [leftMost] + Between(points[..i], leftMost.x, rx, miny);
      var p := points[i];
      [leftMost] + Between(points[..i + 1], leftMost.x, rx, miny) ==
        if p.x > leftMost.x && p.x < rx && p.y >= miny then before + [p] else before
  {
    assert points[..i + 1][..i] == points[..i];
    Regroup([leftMost], Between(points[..i], leftMost.x, rx, miny), [points[i]]);
  }

  /** The loop that fills `newPoints` between its two extremes. */
  method KeptScan(points: seq<Point>, leftMost: Point, rightMost: Point) returns (newPoints: seq<Point>)
    ensures newPoints == Kept(points, leftMost, rightMost)
  {
    newPoints := [leftMost];
    var miny := Min(leftMost.y, rightMost.y);
    for i := 0 to |points|
      invariant newPoints == [leftMost] + Between(points[..i], leftMost.x, rightMost.x, miny)
    {
      BetweenStep(points, leftMost, rightMost.x, miny, i);
      var p := points[i];
      if p.x > leftMost.x && p.x < rightMost.x && p.y >= miny {
        newPoints := newPoints + [p];
      }
    }
    assert points[..|points|] == points;
    newPoints := newPoints + [rightMost];
  }

  /**
   * `getUpperHull`: the loops for the two extremes (pushing, on the unreflected pass, the points
   * level with each on `leftarr` and `rightarr`), the "kabp" record, `newPoints`, the "hidp"
   * record of the points left out, and `connect`. The chain, the records and the two arrays are
   * those of `GetUpperHull`.
   */
  method RunGetUpperHull(edition: Edition, points: seq<Point>, flp: bool, actions: seq<KpsAction>,
                         leftarr: seq<Point>, rightarr: seq<Point>)
    returns (r: Result<seq<Point>>, actions': seq<KpsAction>, leftarr': seq<Point>, rightarr': seq<Point>)
    requires Distinct(points)
    ensures match GetUpperHull(edition, points, flp, leftarr, rightarr)
      case Ok(p) => r == Ok(p.hull) && actions' == actions + p.trace && leftarr' == p.leftarr && rightarr' == p.rightarr
      case Err(f) => r == Err(f)
  {
    if |points| == 0 {
      return Err(NoPoints), actions, leftarr, rightarr;
    }
    var leftMost := LeastX(points);
    leftarr' := leftarr;
    if !flp {
      leftarr' := PushColumn(points, leftMost.x, leftarr);
    }
    leftMost := RaiseScan(points, leftMost);
    var rightMost := GreatestX(points);
    rightarr' := rightarr;
    if !flp {
      rightarr' := PushColumn(points, rightMost.x, rightarr);
    }
    rightMost := RaiseScan(points, rightMost);
    var a1 := actions + [Kabp(Show(flp, leftMost), Show(flp, rightMost))];
    var newPoints := KeptScan(points, leftMost, rightMost);
    var hidp := Hidden(flp, points, Dedup(newPoints));
    var a2 := a1 + [Hidp(hidp)];
    UpperHullFromConnect(edition, points, flp, leftarr, rightarr);
    r, actions' := RunConnect(edition, leftMost, rightMost, newPoints, flp, a2);
    if r.Ok? {
      PushTwo(actions, Kabp(Show(flp, leftMost), Show(flp, rightMost)), Hidp(hidp),
        Connect(edition, leftMost, rightMost, newPoints, flp).value.trace);
    }
  }

  /** `GetUpperHull` once the chain between the two extremes is known. */
  lemma UpperHullFromConnect(edition: Edition, points: seq<Point>, flp: bool, leftarr: seq<Point>, rightarr: seq<Point>)
    requires |points| > 0 && Distinct(points)
    ensures var l, r := LeftMost(points), RightMost(points);
      var kept := Kept(points, l, r);
      var la := if flp then leftarr else leftarr + Column(points, FirstLeast(points).x);
      var ra := if flp then rightarr else rightarr + Column(points, FirstGreatest(points).x);
      var hidden := ShowAll(flp, Outside(points, Dedup(kept)));
      Span(l, r, kept) &&
      match Connect(edition, l, r, kept, flp)
      case Err(f) => GetUpperHull(edition, points, flp, leftarr, rightarr) == Err(f)
      case Ok(c) =>
        GetUpperHull(edition, points, flp, leftarr, rightarr) ==
        Ok(Pass(c.hull, [Kabp(Show(flp, l), Show(flp, r)), Hidp(hidden)] + c.trace, la, ra))
  {
    KeptSpan(points);
  }

  lemma PushTwo<T>(a: seq<T>, x: T, y: T, t: seq<T>)
    ensures a + [x] + [y] + t == a + ([x, y] + t)
  {
  }

  /**
   * The two pops of `convexHull` and the concatenation, on the two chains as arrays: the upper
   * chain loses its last point when the lower chain starts there, and the lower chain its last
   * point when the upper chain starts there. Reading `upperHull[0]` of an emptied chain throws.
   */
  method JoinChains(upper: seq<Point>, lower: seq<Point>) returns (r: Option<seq<Point>>)
    requires |upper| > 0 && |lower| > 0
    ensures r == Close(upper, lower)
  {
    var u, l := upper, lower;
    if u[|u| - 1] == l[0] {
      u := u[..|u| - 1];
    }
    if |u| == 0 {
      return None;
    }
    if u[0] == l[|l| - 1] {
      l := l[..|l| - 1];
    }
    return Some(u + l);
  }

  /**
   * `convexHull`: the upper pass, "uhid" and "radl", the pass on the reflected points with its
   * chain reflected back, "uhid", the "xterm" records (sorting `leftarr` and `rightarr` by y in
   * place), the closing "radl" of `script.js`, and the pops. The hull, the records and the two
   * arrays are those of `ConvexHull`.
   */
  method RunConvexHull(edition: Edition, points: seq<Point>, actions: seq<KpsAction>,
                       leftarr: seq<Point>, rightarr: seq<Point>)
    returns (r: Result<seq<Point>>, actions': seq<KpsAction>, leftarr': seq<Point>, rightarr': seq<Point>)
    requires Distinct(points)
    ensures match ConvexHull(edition, points, leftarr, rightarr)
      case Ok(h) => r == Ok(h.hull) && actions' == actions + h.trace && leftarr' == h.leftarr && rightarr' == h.rightarr
      case Err(f) => r == Err(f)
  {
    var upperHull;
    upperHull, actions', leftarr', rightarr' := RunGetUpperHull(edition, points, false, actions, leftarr, rightarr);
    if upperHull.Err? {
      return Err(upperHull.fault), actions', leftarr', rightarr';
    }
    ghost var up := GetUpperHull(edition, points, false, leftarr, rightarr).value;
    actions' := actions' + [Uhid];
    var flippedPoints := FlipAll(points);
    actions' := actions' + [Radl];
    FlipAllDistinct(points);
    ghost var a1 := actions';
    var lowerHull;
    lowerHull, actions', leftarr', rightarr' := RunGetUpperHull(edition, flippedPoints, true, actions', leftarr', rightarr');
    if lowerHull.Err? {
      return Err(lowerHull.fault), actions', leftarr', rightarr';
    }
    ghost var low := GetUpperHull(edition, flippedPoints, true, up.leftarr, up.rightarr).value;
    assert a1 == actions + up.trace + [Uhid] + [Radl];
    r, actions', leftarr', rightarr' := RunFinish(edition, upperHull.value, lowerHull.value, actions', leftarr', rightarr',
      actions, up, low);
  }

  /**
   * The end of `convexHull` after the two passes: "uhid", the "xterm" records (sorting `leftarr`
   * and `rightarr` by y in place), the closing "radl" of `script.js`, and the pops. The hull, the
   * records and the two arrays are those of `Finish`.
   */
  method RunFinish(edition: Edition, upperHull: seq<Point>, lowerHull: seq<Point>, actions: seq<KpsAction>,
                   leftarr: seq<Point>, rightarr: seq<Point>, ghost start: seq<KpsAction>, ghost up: Pass, ghost low: Pass)
    returns (r: Result<seq<Point>>, actions': seq<KpsAction>, leftarr': seq<Point>, rightarr': seq<Point>)
    requires upperHull == up.hull && lowerHull == low.hull && |upperHull| > 0 && |lowerHull| > 0
    requires actions == start + up.trace + [Uhid] + [Radl] + low.trace
    requires leftarr == low.leftarr && rightarr == low.rightarr
    ensures match Finish(edition, up, low)
      case Ok(h) => r == Ok(h.hull) && actions' == start + h.trace && leftarr' == h.leftarr && rightarr' == h.rightarr
      case Err(f) => r == Err(f)
  {
    var lower := FlipAll(lowerHull);
    actions' := actions + [Uhid];
    ghost var a2 := actions';
    leftarr', rightarr' := leftarr, rightarr;
    if |leftarr'| >= 2 {
      leftarr' := SortByY(leftarr');
      actions' := actions' + [Xterm(leftarr')];
    }
    ghost var a3 := actions';
    if |rightarr'| >= 2 {
      rightarr' := SortByY(rightarr');
      actions' := actions' + [Xterm(rightarr')];
    }
    ghost var a4 := actions';
    if edition == Script {
      actions' := actions' + [Radl];
    }
    HullTrace(start, up.trace, low.trace, Xterms(low.leftarr), Xterms(low.rightarr),
      if edition == Script then [Radl] else [], start + up.trace + [Uhid] + [Radl], a2, a3, a4, actions');
    var joined := JoinChains(upperHull, lower);
    if joined.None? {
      return Err(EmptyUpperChain), actions', leftarr', rightarr';
    }
    r := Ok(joined.value);
  }

  /** The records of `convexHull` in the order it pushes them. */
  lemma HullTrace(a: seq<KpsAction>, u: seq<KpsAction>, l: seq<KpsAction>, x: seq<KpsAction>, y: seq<KpsAction>,
                  z: seq<KpsAction>, a1: seq<KpsAction>, a2: seq<KpsAction>, a3: seq<KpsAction>, a4: seq<KpsAction>,
                  a5: seq<KpsAction>)
    requires a1 == a + u + [Uhid] + [Radl]
    requires a2 == a1 + l + [Uhid] && a3 == a2 + x && a4 == a3 + y && a5 == a4 + z
    ensures a5 == a + (u + [Uhid, Radl] + l + [Uhid] + x + y + z)
  {
  }
}
