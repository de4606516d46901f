/**
 * The loops of `getBridge`, step by step: each method runs one loop of the source over local
 * variables and the `actions` array (passed in and handed back with the records appended), and
 * its postcondition ties the outcome to the function of `Bridge` that specifies that loop.
 */
module BridgeLoops {
  import opened Seqs
  import opened Geometry
  import opened OrderedSet
  import opened Outcomes
  import opened Sorting
  import opened KpsTrace
  import opened Bridge

  /** `PairLines` grows by one record per pair. */
  lemma PairLinesSnoc(flp: bool, pairs: seq<Pair>, q: Pair)
    ensures PairLines(flp, pairs + [q]) == PairLines(flp, pairs) + [Ddl(Show(flp, q.lo), Show(flp, q.hi))]
  {
    var a, b := PairLines(flp, pairs + [q]), PairLines(flp, pairs) + [Ddl(Show(flp, q.lo), Show(flp, q.hi))];
    assert |a| == |b|;
    forall i | 0 <= i < |a| ensures a[i] == b[i] {
      if i < |pairs| {
        assert (pairs + [q])[i] == pairs[i];
      }
    }
  }

  /** The state of the pairing loop: `pairs` made from the front of `set0`, `left` still in the set. */
  ghost predicate Pairing0(flp: bool, set0: seq<Point>, actions: seq<KpsAction>,
                           pairs: seq<Pair>, left: seq<Point>, actions': seq<KpsAction>)
  {
    2 * |pairs| <= |set0| && left == set0[2 * |pairs|..] &&
    Pairing(set0) == pairs + Pairing(left) && actions' == actions + PairLines(flp, pairs)
  }

  /** Popping two points of the set and pairing them keeps the pairing loop's state. */
  lemma PairUpStep(flp: bool, set0: seq<Point>, actions: seq<KpsAction>,
                   pairs: seq<Pair>, left: seq<Point>, actions': seq<KpsAction>)
    requires Pairing0(flp, set0, actions, pairs, left, actions')
    requires |left| >= 2
    ensures var q := MakePair(left[0], left[1]);
      Pairing0(flp, set0, actions, pairs + [q], left[2..], actions' + [Ddl(Show(flp, q.lo), Show(flp, q.hi))])
  {
    var q := MakePair(left[0], left[1]);
    PairingStep(left);
    Regroup(pairs, [q], Pairing(left[2..]));
    PairLinesSnoc(flp, pairs, q);
    Regroup(actions, PairLines(flp, pairs), [Ddl(Show(flp, q.lo), Show(flp, q.hi))]);
    assert set0[2 * |pairs| + 2..] == left[2..];
  }

  /**
   * The pairing loop: while the set holds two points, pop two, sort them and push a "ddl" record.
   * The pairs, and the point left in the set, are those `Pairing` and `Leftover` describe.
   */
  method PairUp(points: seq<Point>, flp: bool, actions: seq<KpsAction>)
    returns (pairs: seq<Pair>, rest: seq<Point>, actions': seq<KpsAction>)
    ensures pairs == Pairing(Dedup(points)) && rest == Leftover(Dedup(points))
    ensures actions' == actions + PairLines(flp, pairs)
  {
    ghost var set0 := Dedup(points);
    var pointsSet := Dedup(points);
    pairs, actions' := [], actions;
    while |pointsSet| >= 2
      invariant Pairing0(flp, set0, actions, pairs, pointsSet, actions')
      decreases |pointsSet|
    {
      PairUpStep(flp, set0, actions, pairs, pointsSet, actions');
      var first := PopFromSet(pointsSet);
      var second := PopFromSet(first.1);
      var pair := MakePair(first.0, second.0);
      pairs := pairs + [pair];
      actions' := actions' + [Ddl(Show(flp, pair.lo), Show(flp, pair.hi))];
      pointsSet := second.1;
    }
    rest := pointsSet;
    assert pairs + [] == pairs;
  }

  /** One round of the pairing loop. */
  lemma PairingStep(s: seq<Point>)
    requires |s| >= 2
    ensures Pairing(s) == [MakePair(s[0], s[1])] + Pairing(s[2..])
  {
  }

  /** `SplitVertical` over one more pair. */
  lemma SplitVerticalSnoc(flp: bool, pairs: seq<Pair>, q: Pair)
    ensures var s, r := SplitVertical(flp, pairs), SplitVertical(flp, pairs + [q]);
      if Vertical(q) then r == Split(s.kept, s.tops + [Upper(q)], s.events + [Hidp([Show(flp, Under(q))])])
      else r == Split(s.kept + [q], s.tops, s.events)
  {
    assert (pairs + [q])[..|pairs|] == pairs;
  }

  /** `Slopes` over one more pair. */
  lemma SlopesSnoc(kept: seq<Pair>, q: Pair)
    requires forall i :: 0 <= i < |kept| ==> !Vertical(kept[i])
    requires !Vertical(q)
    ensures Slopes(kept + [q]) == Slopes(kept) + [Slope(q.lo, q.hi)]
  {
    var a, b := Slopes(kept + [q]), Slopes(kept) + [Slope(q.lo, q.hi)];
    assert |a| == |b|;
    forall i | 0 <= i < |a| ensures a[i] == b[i] {
      if i < |kept| {
        assert (kept + [q])[i] == kept[i];
      }
    }
  }

  /** The state of the vertical-pair loop after `done` pairs of `pairs0`, `i` of them kept. */
  ghost predicate Dropping(flp: bool, pairs0: seq<Pair>, candidates: seq<Point>, actions: seq<KpsAction>, done: nat,
                           pairs: seq<Pair>, i: nat, slopes: seq<real>, candidates': seq<Point>, actions': seq<KpsAction>)
  {
    i <= |pairs| && done <= |pairs0| && pairs[i..] == pairs0[done..] &&
    (forall k :: 0 <= k < i ==> !Vertical(pairs[k])) && slopes == Slopes(pairs[..i]) &&
    var s := SplitVertical(flp, pairs0[..done]);
    pairs[..i] == s.kept && candidates' == AddAll(candidates, s.tops) && actions' == actions + s.events
  }

  /** Before the vertical-pair loop nothing is read, kept or recorded. */
  lemma DroppingInit(flp: bool, pairs0: seq<Pair>, candidates: seq<Point>, actions: seq<KpsAction>)
    ensures Dropping(flp, pairs0, candidates, actions, 0, pairs0, 0, [], candidates, actions)
  {
    assert pairs0[..0] == [] && pairs0[0..] == pairs0;
  }

  /** A vertical pair is spliced out: its higher point joins the candidates and the other is hidden. */
  lemma SpliceStep(flp: bool, pairs0: seq<Pair>, candidates: seq<Point>, actions: seq<KpsAction>, done: nat,
                   pairs: seq<Pair>, i: nat, slopes: seq<real>, candidates': seq<Point>, actions': seq<KpsAction>,
                   top: Point, under: Point)
    requires Dropping(flp, pairs0, candidates, actions, done, pairs, i, slopes, candidates', actions')
    requires i < |pairs| && Vertical(pairs[i]) && top == Upper(pairs[i]) && under == Under(pairs[i])
    ensures Dropping(flp, pairs0, candidates, actions, done + 1, pairs[..i] + pairs[i + 1..], i, slopes,
      SetAdd(candidates', top), actions' + [Hidp([Show(flp, under)])])
  {
    var q := pairs[i];
    assert q == pairs0[done] && pairs0[..done + 1] == pairs0[..done] + [q];
    SplitVerticalSnoc(flp, pairs0[..done], q);
    var s := SplitVertical(flp, pairs0[..done]);
    var p := pairs[..i] + pairs[i + 1..];
    assert p[..i] == pairs[..i] && p[i..] == pairs0[done + 1..];
    assert actions' + [Hidp([Show(flp, Under(q))])] == actions + (s.events + [Hidp([Show(flp, Under(q))])]);
  }

  /** Any other pair stays and gives its slope. */
  lemma KeepStep(flp: bool, pairs0: seq<Pair>, candidates: seq<Point>, actions: seq<KpsAction>, done: nat,
                 pairs: seq<Pair>, i: nat, slopes: seq<real>, candidates': seq<Point>, actions': seq<KpsAction>)
    requires Dropping(flp, pairs0, candidates, actions, done, pairs, i, slopes, candidates', actions')
    requires i < |pairs| && !Vertical(pairs[i])
    ensures var q := pairs[i];
      Dropping(flp, pairs0, candidates, actions, done + 1, pairs, i + 1, slopes + [Slope(q.lo, q.hi)], candidates', actions')
  {
    var q := pairs[i];
    assert q == pairs0[done] && pairs0[..done + 1] == pairs0[..done] + [q];
    SplitVerticalSnoc(flp, pairs0[..done], q);
    assert pairs[..i + 1] == pairs[..i] + [q];
    SlopesSnoc(pairs[..i], q);
  }

  /**
   * The vertical-pair loop: a vertical pair hands its higher point to the candidates, pushes a
   * "hidp" record for the other and is spliced out of `pairs` (with `i--`); any other pair pushes
   * its slope. What is left matches `SplitVertical`, and `slopes` matches `Slopes` of the kept pairs.
   */
  method DropVertical(pairs0: seq<Pair>, flp: bool, candidates: seq<Point>, actions: seq<KpsAction>)
    returns (pairs: seq<Pair>, slopes: seq<real>, candidates': seq<Point>, actions': seq<KpsAction>)
    ensures var s := SplitVertical(flp, pairs0);
      pairs == s.kept && (forall i :: 0 <= i < |pairs| ==> !Vertical(pairs[i])) && slopes == Slopes(pairs) &&
      candidates' == AddAll(candidates, s.tops) && actions' == actions + s.events
  {
    pairs, slopes, candidates', actions' := pairs0, [], candidates, actions;
    var i := 0;
    ghost var done := 0;
    DroppingInit(flp, pairs0, candidates, actions);
    while i < |pairs|
      invariant Dropping(flp, pairs0, candidates, actions, done, pairs, i, slopes, candidates', actions')
      decreases |pairs| - i
    {
      var q := pairs[i];
      if q.lo.x == q.hi.x {
        // The higher point of the pair is kept as a candidate, the other is hidden.
        var top, under := q.hi, q.lo;
        if q.lo.y > q.hi.y {
          top, under := q.lo, q.hi;
        }
        SpliceStep(flp, pairs0, candidates, actions, done, pairs, i, slopes, candidates', actions', top, under);
        candidates' := SetAdd(candidates', top);
        actions' := actions' + [Hidp([Show(flp, under)])];
        pairs := pairs[..i] + pairs[i + 1..];
        // `i--` here and the loop's `i++` cancel out.
      } else {
        KeepStep(flp, pairs0, candidates, actions, done, pairs, i, slopes, candidates', actions');
        slopes := slopes + [Slope(q.lo, q.hi)];
        i := i + 1;
      }
      done := done + 1;
    }
    DroppingDone(flp, pairs0, candidates, actions, done, pairs, i, slopes, candidates', actions');
  }

  /** When the vertical-pair loop has read every pair, its state is that of `SplitVertical`. */
  lemma DroppingDone(flp: bool, pairs0: seq<Pair>, candidates: seq<Point>, actions: seq<KpsAction>, done: nat,
                     pairs: seq<Pair>, i: nat, slopes: seq<real>, candidates': seq<Point>, actions': seq<KpsAction>)
    requires Dropping(flp, pairs0, candidates, actions, done, pairs, i, slopes, candidates', actions')
    requires i == |pairs|
    ensures var s := SplitVertical(flp, pairs0);
      pairs == s.kept && (forall k :: 0 <= k < |pairs| ==> !Vertical(pairs[k])) && slopes == Slopes(pairs) &&
      candidates' == AddAll(candidates, s.tops) && actions' == actions + s.events
  {
    assert |pairs0[done..]| == 0;
    assert pairs0[..done] == pairs0 && pairs[..i] == pairs;
  }

  /** One more pair read by the bucket loop. */
  lemma ClassifyStep(flp: bool, pairs: seq<Pair>, slopes: seq<real>, m: real, actions: seq<KpsAction>, i: int)
    requires |pairs| == |slopes| && 0 <= i < |pairs|
    ensures var b, q := Classify(flp, pairs[..i], slopes[..i], m), pairs[i];
      var r := Classify(flp, pairs[..i + 1], slopes[..i + 1], m);
      actions + r.events == (actions + b.events) + [r.events[|r.events| - 1]] &&
      if slopes[i] < m then
        r == Buckets(b.small + [q], b.equal, b.large, b.events + [Crdl(Show(flp, q.lo), Show(flp, q.hi))])
      else if slopes[i] > m then
        r == Buckets(b.small, b.equal, b.large + [q], b.events + [Cgdl(Show(flp, q.lo), Show(flp, q.hi))])
      else
        r == Buckets(b.small, b.equal + [q], b.large, b.events + [Cydl(Show(flp, q.lo), Show(flp, q.hi))])
  {
    assert pairs[..i + 1][..i] == pairs[..i] && slopes[..i + 1][..i] == slopes[..i];
    var b, r := Classify(flp, pairs[..i], slopes[..i], m), Classify(flp, pairs[..i + 1], slopes[..i + 1], m);
    assert r.events == b.events + [r.events[|r.events| - 1]];
    Regroup(actions, b.events, [r.events[|r.events| - 1]]);
  }

  /** The bucket loop: every pair goes to `small`, `equal` or `large` by its slope against `m`. */
  method Bucket(pairs: seq<Pair>, slopes: seq<real>, m: real, flp: bool, actions: seq<KpsAction>)
    returns (small: seq<Pair>, equal: seq<Pair>, large: seq<Pair>, actions': seq<KpsAction>)
    requires |pairs| == |slopes|
    ensures var b := Classify(flp, pairs, slopes, m);
      small == b.small && equal == b.equal && large == b.large && actions' == actions + b.events
  {
    small, equal, large, actions' := [], [], [], actions;
    for i := 0 to |slopes|
      invariant var b := Classify(flp, pairs[..i], slopes[..i], m);
        small == b.small && equal == b.equal && large == b.large && actions' == actions + b.events
    {
      ClassifyStep(flp, pairs, slopes, m, actions, i);
      var q := pairs[i];
      if slopes[i] < m {
        small := small + [q];
        actions' := actions' + [Crdl(Show(flp, q.lo), Show(flp, q.hi))];
      } else if slopes[i] > m {
        large := large + [q];
        actions' := actions' + [Cgdl(Show(flp, q.lo), Show(flp, q.hi))];
      } else {
        equal := equal + [q];
        actions' := actions' + [Cydl(Show(flp, q.lo), Show(flp, q.hi))];
      }
    }
    assert pairs[..|slopes|] == pairs && slopes[..|slopes|] == slopes;
  }

  /**
   * The scan for the highest line of slope `m`: `max_intercept` starts at minus infinity (here
   * `None`) and only a strictly greater intercept replaces the point found so far.
   */
  method MaxScan(points: seq<Point>, m: real) returns (maxPoint: Point, maxIntercept: real)
    requires |points| > 0
    ensures maxPoint == FirstMax(points, m) && maxIntercept == Intercept(maxPoint, m)
  {
    var top: Option<real> := None;
    maxPoint := points[0];
    for i := 0 to |points|
      invariant i == 0 <==> top.None?
      invariant i > 0 ==> maxPoint == FirstMax(points[..i], m) && top == Some(Intercept(maxPoint, m))
    {
      assert points[..i + 1][..i] == points[..i];
      var c := Intercept(points[i], m);
      if top.None? || top.value < c {
        top := Some(c);
        maxPoint := points[i];
      }
    }
    assert points[..|points|] == points;
    maxIntercept := top.value;
  }

  /** The scan that gathers, into a fresh set, the points whose intercept is `mi`. */
  method MaxSet(points: seq<Point>, m: real, mi: real) returns (maxSet: seq<Point>)
    ensures maxSet == Dedup(OnLine(points, m, mi))
  {
    maxSet := [];
    for i := 0 to |points|
      invariant maxSet == AddAll([], OnLine(points[..i], m, mi))
    {
      OnLineStep(points, m, mi, i);
      if mi == Intercept(points[i], m) {
        maxSet := SetAdd(maxSet, points[i]);
      }
    }
    assert points[..|points|] == points;
  }

  /** One more point read by the scan that fills `max_set`. */
  lemma OnLineStep(points: seq<Point>, m: real, mi: real, i: int)
    requires 0 <= i < |points|
    ensures var before := AddAll([], OnLine(points[..i], m, mi));
      AddAll([], OnLine(points[..i + 1], m, mi)) == if mi == Intercept(points[i], m) then SetAdd(before, points[i]) else before
  {
    var line := OnLine(points[..i], m, mi);
    assert points[..i + 1][..i] == points[..i];
    if mi == Intercept(points[i], m) {
      AddAllSnoc([], line, points[i]);
    } else {
      assert line + [] == line;
    }
  }

  /** The two scans for `left` and `right` over the array made from `max_set`. */
  method Ends(maxSet: seq<Point>) returns (left: Point, right: Point)
    requires |maxSet| > 0
    ensures left == LexMin(maxSet) && right == LexMax(maxSet)
  {
    left := maxSet[0];
    for i := 1 to |maxSet|
      invariant left == LexMin(maxSet[..i])
    {
      assert maxSet[..i + 1][..i] == maxSet[..i];
      if maxSet[i].x < left.x || (maxSet[i].x == left.x && maxSet[i].y < left.y) {
        left := maxSet[i];
      }
    }
    right := maxSet[0];
    for i := 1 to |maxSet|
      invariant right == LexMax(maxSet[..i])
    {
      assert maxSet[..i + 1][..i] == maxSet[..i];
      if maxSet[i].x > right.x || (maxSet[i].x == right.x && maxSet[i].y > right.y) {
        right := maxSet[i];
      }
    }
    assert maxSet[..|maxSet|] == maxSet;
  }

  /** One more pair read by the loop of `KeepHi`, with the records threaded onto `actions`. */
  lemma KeepHiStep(flp: bool, ps: seq<Pair>, c: seq<Point>, actions: seq<KpsAction>, i: int)
    requires 0 <= i < |ps|
    ensures var h, r := KeepHi(flp, ps[..i], c), KeepHi(flp, ps[..i + 1], c);
      r.candidates == SetAdd(h.candidates, ps[i].hi) &&
      actions + r.events == (actions + h.events) + [Hidp([Show(flp, ps[i].lo)])]
  {
    assert ps[..i + 1][..i] == ps[..i];
    Regroup(actions, KeepHi(flp, ps[..i], c).events, [Hidp([Show(flp, ps[i].lo)])]);
  }

  /** The loop over `[pt, point]`: `point` joins the candidates and `pt` is hidden. */
  method KeepHiPass(flp: bool, ps: seq<Pair>, candidates: seq<Point>, actions: seq<KpsAction>)
    returns (candidates': seq<Point>, actions': seq<KpsAction>)
    ensures var h := KeepHi(flp, ps, candidates);
      candidates' == h.candidates && actions' == actions + h.events
  {
    candidates', actions' := candidates, actions;
    for i := 0 to |ps|
      invariant var h := KeepHi(flp, ps[..i], candidates);
        candidates' == h.candidates && actions' == actions + h.events
    {
      KeepHiStep(flp, ps, candidates, actions, i);
      candidates' := SetAdd(candidates', ps[i].hi);
      actions' := actions' + [Hidp([Show(flp, ps[i].lo)])];
    }
    assert ps[..|ps|] == ps;
  }

  /** One more pair read by the loop of `KeepLo`, with the records threaded onto `actions`. */
  lemma KeepLoStep(flp: bool, ps: seq<Pair>, c: seq<Point>, actions: seq<KpsAction>, i: int)
    requires 0 <= i < |ps|
    ensures var h, r := KeepLo(flp, ps[..i], c), KeepLo(flp, ps[..i + 1], c);
      r.candidates == SetAdd(h.candidates, ps[i].lo) &&
      actions + r.events == (actions + h.events) + [Hidp([Show(flp, ps[i].hi)])]
  {
    assert ps[..i + 1][..i] == ps[..i];
    Regroup(actions, KeepLo(flp, ps[..i], c).events, [Hidp([Show(flp, ps[i].hi)])]);
  }

  /** The loop over `[point, pt]`: `point` joins the candidates and `pt` is hidden. */
  method KeepLoPass(flp: bool, ps: seq<Pair>, candidates: seq<Point>, actions: seq<KpsAction>)
    returns (candidates': seq<Point>, actions': seq<KpsAction>)
    ensures var h := KeepLo(flp, ps, candidates);
      candidates' == h.candidates && actions' == actions + h.events
  {
    candidates', actions' := candidates, actions;
    for i := 0 to |ps|
      invariant var h := KeepLo(flp, ps[..i], candidates);
        candidates' == h.candidates && actions' == actions + h.events
    {
      KeepLoStep(flp, ps, candidates, actions, i);
      candidates' := SetAdd(candidates', ps[i].lo);
      actions' := actions' + [Hidp([Show(flp, ps[i].hi)])];
    }
    assert ps[..|ps|] == ps;
  }

  /** The nested loop that adds both points of every pair. */
  method KeepBothPass(ps: seq<Pair>, candidates: seq<Point>) returns (candidates': seq<Point>)
    ensures candidates' == KeepBoth(ps, candidates)
  {
    candidates' := candidates;
    for i := 0 to |ps|
      invariant candidates' == KeepBoth(ps[..i], candidates)
    {
      assert ps[..i + 1][..i] == ps[..i];
      candidates' := SetAdd(candidates', ps[i].lo);
      candidates' := SetAdd(candidates', ps[i].hi);
    }
    assert ps[..|ps|] == ps;
  }

  /** The round `RoundOf` describes, assembled from what each loop computes. */
  lemma RoundFromLoops(edition: Edition, points: seq<Point>, flp: bool, pairs: seq<Pair>, rest: seq<Point>,
                       kept: seq<Pair>, slopes: seq<real>, candidates: seq<Point>, m: real, buckets: Buckets,
                       maxPoint: Point, maxSet: seq<Point>, left: Point, right: Point)
    requires pairs == Pairing(Dedup(points)) && rest == Leftover(Dedup(points))
    requires var s := SplitVertical(flp, pairs);
      kept == s.kept && (forall i :: 0 <= i < |kept| ==> !Vertical(kept[i])) && slopes == Slopes(kept) &&
      candidates == AddAll(rest, s.tops)
    requires |slopes| > 0 && m == MedianSlope(edition, slopes) && buckets == Classify(flp, kept, slopes, m)
    requires maxPoint == FirstMax(points, m) && maxSet == Dedup(OnLine(points, m, Intercept(maxPoint, m)))
    requires |maxSet| > 0 && left == LexMin(maxSet) && right == LexMax(maxSet)
    ensures RoundOf(edition, points, flp) ==
      Ok(Round(Prep(pairs, SplitVertical(flp, pairs), candidates), slopes, m, buckets, maxPoint, maxSet, left, right))
  {
  }

  /**
   * One round of `getBridge` up to the "hrc" record: the pairing, vertical-pair, bucket and
   * supporting-line loops in turn. The round is `RoundOf`, and its records are appended to `actions`.
   */
  method RunRound(edition: Edition, points: seq<Point>, flp: bool, actions: seq<KpsAction>)
    returns (r: Result<Round>, actions': seq<KpsAction>)
    ensures r == RoundOf(edition, points, flp)
    ensures r.Ok? ==> actions' == actions + RoundEvents(flp, r.value)
  {
    var pairs, rest, a1 := PairUp(points, flp, actions);
    var kept, slopes, candidates, a2 := DropVertical(pairs, flp, rest, a1);
    if |slopes| == 0 {
      return Err(NoMedianSlope), a2;
    }
    var m := MedianSlope(edition, slopes);
    var small, equal, large, a3 := Bucket(kept, slopes, m, flp, a2);
    var maxPoint, maxIntercept := MaxScan(points, m);
    actions' := a3 + [Dsup(Show(flp, maxPoint), m)];
    var maxSet := MaxSet(points, m, maxIntercept);
    assert maxPoint in maxSet;
    var left, right := Ends(maxSet);
    actions' := actions' + [Hrc(left, right)];
    var split := SplitVertical(flp, pairs);
    var buckets := Buckets(small, equal, large, a3[|a2|..]);
    assert a3[|a2|..] == Classify(flp, kept, slopes, m).events;
    RoundFromLoops(edition, points, flp, pairs, rest, kept, slopes, candidates, m, buckets, maxPoint, maxSet, left, right);
    r := Ok(Round(Prep(pairs, split, candidates), slopes, m, buckets, maxPoint, maxSet, left, right));
    Appended(actions, a1, a2, a3, PairLines(flp, pairs), split.events, buckets.events,
      Dsup(Show(flp, maxPoint), m), Hrc(left, right));
  }

  /** Three appended pieces and two pushes append their concatenation. */
  lemma Appended<T>(a: seq<T>, a1: seq<T>, a2: seq<T>, a3: seq<T>, b1: seq<T>, b2: seq<T>, b3: seq<T>, x: T, y: T)
    requires a1 == a + b1 && a2 == a1 + b2 && a3 == a2 + b3
    ensures a3 + [x] + [y] == a + (b1 + b2 + b3 + [x, y])
  {
  }

  /** The two pruning branches: the candidates and records are those of `Prune`. */
  method RunPrune(flp: bool, round: Round, median: real, actions: seq<KpsAction>)
    returns (candidates: seq<Point>, actions': seq<KpsAction>)
    ensures var p := Prune(flp, round, median);
      candidates == p.candidates && actions' == actions + p.events
  {
    var b := round.buckets;
    candidates, actions' := round.prep.candidates, actions;
    if round.right.x <= median {
      candidates, actions' := KeepHiPass(flp, b.large + b.equal, candidates, actions');
      candidates := KeepBothPass(b.small, candidates);
    }
    ghost var mid := actions';
    if round.left.x > median {
      candidates, actions' := KeepLoPass(flp, b.small + b.equal, candidates, actions');
      candidates := KeepBothPass(b.large, candidates);
      Regroup(actions, mid[|actions|..], actions'[|mid|..]);
    }
    assert actions + [] == actions;
  }

  /**
   * `getBridge`, loop by loop: two points come back sorted; otherwise one round pairs the points,
   * drops the vertical pairs, buckets the rest by the median slope, finds the supporting line and
   * either returns its ends or prunes and calls itself on the candidates. The ends and the records
   * pushed are those of `GetBridge`; where that throws, so does this.
   */
  method RunGetBridge(edition: Edition, points: seq<Point>, median: real, flp: bool, actions: seq<KpsAction>)
    returns (r: Result<(Point, Point)>, actions': seq<KpsAction>)
    requires Distinct(points)
    ensures match GetBridge(edition, points, median, flp)
      case Ok(b) => r == Ok((b.left, b.right)) && actions' == actions + b.trace
      case Err(f) => r == Err(f)
    decreases |points|
  {
    if |points| == 2 {
      var sorted := SortLex(points);
      GetBridgeStops(edition, points, median, flp);
      assert actions + [] == actions;
      return Ok((sorted[0], sorted[1])), actions;
    }
    var round;
    round, actions' := RunRound(edition, points, flp, actions);
    if round.Err? {
      GetBridgeStops(edition, points, median, flp);
      return Err(round.fault), actions';
    }
    var left, right := round.value.left, round.value.right;
    if left.x <= median && right.x >= median {
      GetBridgeStops(edition, points, median, flp);
      return Ok((left, right)), actions';
    }
    var candidates, a4 := RunPrune(flp, round.value, median, actions');
    a4 := a4 + [Radl];
    GetBridgeRecurses(edition, points, median, flp);
    r, actions' := RunGetBridge(edition, candidates, median, flp, a4);
    if r.Ok? {
      Regroup4(actions, RoundEvents(flp, round.value), Prune(flp, round.value, median).events, [Radl],
        GetBridge(edition, candidates, median, flp).value.trace);
    }
  }
}
