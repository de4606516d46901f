/**
 * `getBridge` of the Kirkpatrick–Seidel upper hull: the edge of the upper hull that crosses the
 * vertical line `x = median`, found by pairing the points, taking a median slope and discarding
 * points that cannot be an end of the bridge.
 */
module Bridge {
  import opened Seqs
  import opened Geometry
  import opened OrderedSet
  import opened Outcomes
  import opened Sorting
  import opened KpsTrace

  /** A two-point array after its sort: `lo` is `pair[0]`, `hi` is `pair[1]`. */
  datatype Pair = Pair(lo: Point, hi: Point)

  /**
   * Two points popped from the set, sorted with the (x, then y) comparator: a two-element sort
   * swaps them only when the comparator puts the second strictly first.
   */
  function MakePair(a: Point, b: Point): (r: Pair)
    ensures (r.lo == a && r.hi == b) || (r.lo == b && r.hi == a)
    ensures LexLeq(r.lo, r.hi)
  {
    if LexLeq(a, b) then Pair(a, b) else Pair(b, a)
  }

  /** The pair is the comparator sort of the two points. */
  lemma MakePairSorts(a: Point, b: Point)
    ensures var q := MakePair(a, b); SortLex([a, b]) == [q.lo, q.hi]
  {
    var s := SortLex([a, b]);
    assert [a, b][1..] == [b];
    assert SortLex([b]) == [b] by {
      assert [b][1..] == [];
    }
  }

  /** The pairing loop: the set's elements two at a time, in insertion order. */
  function Pairing(s: seq<Point>): (r: seq<Pair>)
    ensures |r| == |s| / 2
    ensures forall q :: q in r ==> q.lo in s && q.hi in s
    decreases |s|
  {
    if |s| < 2 then []
    else
      var rest := Pairing(s[2..]);
      assert forall t :: t in s[2..] ==> t in s;
      [MakePair(s[0], s[1])] + rest
  }

  /** The `i`-th pair is made of the set's elements `2 * i` and `2 * i + 1`, in insertion order. */
  lemma {:induction false} PairingAt(s: seq<Point>, i: nat)
    requires 2 * i + 1 < |s|
    ensures i < |Pairing(s)| && Pairing(s)[i] == MakePair(s[2 * i], s[2 * i + 1])
    decreases i
  {
    var rest := s[2..];
    assert Pairing(s) == [MakePair(s[0], s[1])] + Pairing(rest);
    if i > 0 {
      var j := i - 1;
      PairingAt(rest, j);
      assert rest[2 * j] == s[2 * i] && rest[2 * j + 1] == s[2 * i + 1];
    }
  }

  /** The point still in the set after the pairing loop, when the set had odd size. */
  function Leftover(s: seq<Point>): (r: seq<Point>)
    ensures |r| == |s| % 2 && Distinct(r)
    ensures forall t :: t in r ==> t in s
  {
    if |s| % 2 == 1 then [s[|s| - 1]] else []
  }

  /** The "ddl" records of the pairing loop, one per pair, reflected back when `flp`. */
  function PairLines(flp: bool, pairs: seq<Pair>): (r: seq<KpsAction>)
    ensures |r| == |pairs|
    ensures forall i :: 0 <= i < |pairs| ==> r[i] == Ddl(Show(flp, pairs[i].lo), Show(flp, pairs[i].hi))
  {
    seq(|pairs|, i requires 0 <= i < |pairs| => Ddl(Show(flp, pairs[i].lo), Show(flp, pairs[i].hi)))
  }

  predicate Vertical(q: Pair) {
    q.lo.x == q.hi.x
  }

  /** The point of a vertical pair that stays a candidate: `pair[0]` only when strictly higher. */
  function Upper(q: Pair): Point {
    if q.lo.y > q.hi.y then q.lo else q.hi
  }

  /** The point of a vertical pair that is hidden. */
  function Under(q: Pair): Point {
    if q.lo.y > q.hi.y then q.hi else q.lo
  }

  /** What the vertical-pair loop leaves: the pairs not spliced out, the candidates it added and its records. */
  datatype Split = Split(kept: seq<Pair>, tops: seq<Point>, events: seq<KpsAction>)

  /** The vertical-pair loop over `pairs`: a vertical pair gives its higher point and is spliced out. */
  function SplitVertical(flp: bool, pairs: seq<Pair>): (r: Split)
    ensures |r.kept| + |r.tops| == |pairs|
    ensures forall q :: q in r.kept ==> q in pairs && !Vertical(q)
    ensures forall t :: t in r.tops ==> exists q :: q in pairs && Vertical(q) && t == Upper(q)
  {
    if pairs == [] then Split([], [], [])
    else
      var s := SplitVertical(flp, pairs[..|pairs| - 1]);
      var q := pairs[|pairs| - 1];
      assert forall p :: p in pairs[..|pairs| - 1] ==> p in pairs;
      if Vertical(q) then Split(s.kept, s.tops + [Upper(q)], s.events + [Hidp([Show(flp, Under(q))])])
      else Split(s.kept + [q], s.tops, s.events)
  }

  /** Every vertical pair hands its higher point to the candidates; every other pair stays, in order. */
  lemma {:induction false} SplitVerticalSorts(flp: bool, pairs: seq<Pair>)
    ensures var r := SplitVertical(flp, pairs);
      forall q :: q in pairs ==> if Vertical(q) then Upper(q) in r.tops else q in r.kept
  {
    if pairs != [] {
      var init := pairs[..|pairs| - 1];
      SplitVerticalSorts(flp, init);
      assert pairs == init + [pairs[|pairs| - 1]];
    }
  }

  /** `slopes`: `slopes[i]` is the slope of the `i`-th pair that was not spliced out. */
  function Slopes(kept: seq<Pair>): (r: seq<real>)
    requires forall i :: 0 <= i < |kept| ==> !Vertical(kept[i])
    ensures |r| == |kept|
    ensures forall i :: 0 <= i < |kept| ==> !Vertical(kept[i]) && r[i] == Slope(kept[i].lo, kept[i].hi)
  {
    seq(|kept|, i requires 0 <= i < |kept| && !Vertical(kept[i]) => Slope(kept[i].lo, kept[i].hi))
  }

  /** `med_index`: `floor(n / 2)`, less one when `n` is even. */
  function MedianIndex(n: nat): (r: int)
    ensures n == 0 ==> r == -1
    ensures n > 0 ==> 0 <= r < n && r == (n - 1) / 2
  {
    IntegerDivision(n, 2) - (if n % 2 == 0 then 1 else 0)
  }

  /**
   * `med_slope`. `script.js` sorts a copy of the slopes numerically and takes index `med_index`.
   * `doc_script.js` sorts the slopes in place with the point comparator, which compares
   * `undefined` fields of numbers, returns NaN, and so leaves the order unchanged.
   */
  function MedianSlope(edition: Edition, slopes: seq<real>): (r: real)
    requires |slopes| > 0
    ensures r in slopes
    ensures edition == Script ==>
      CountBelow(slopes, r) <= (|slopes| - 1) / 2 < CountAtMost(slopes, r)
    ensures edition == DocScript ==> r == slopes[(|slopes| - 1) / 2]
  {
    var k := MedianIndex(|slopes|);
    if edition == Script then
      QuickselectSlopesIsOrderStatistic(slopes, k);
      QuickselectSlopes(slopes, k)
    else slopes[k]
  }

  /** The three slope buckets, with the records the bucket loop pushes. */
  datatype Buckets = Buckets(small: seq<Pair>, equal: seq<Pair>, large: seq<Pair>, events: seq<KpsAction>)

  /** The bucket loop: each pair goes to `small`, `large` or `equal` by its slope against `m`. */
  function Classify(flp: bool, kept: seq<Pair>, slopes: seq<real>, m: real): (r: Buckets)
    requires |kept| == |slopes|
    ensures |r.small| + |r.equal| + |r.large| == |kept|
  {
    if kept == [] then Buckets([], [], [], [])
    else
      var n := |kept| - 1;
      var b := Classify(flp, kept[..n], slopes[..n], m);
      var q := kept[n];
      if slopes[n] < m then
        Buckets(b.small + [q], b.equal, b.large, b.events + [Crdl(Show(flp, q.lo), Show(flp, q.hi))])
      else if slopes[n] > m then
        Buckets(b.small, b.equal, b.large + [q], b.events + [Cgdl(Show(flp, q.lo), Show(flp, q.hi))])
      else
        Buckets(b.small, b.equal + [q], b.large, b.events + [Cydl(Show(flp, q.lo), Show(flp, q.hi))])
  }

  /** One step of the bucket loop: the last pair joins exactly one bucket. */
  lemma ClassifyStep(flp: bool, kept: seq<Pair>, slopes: seq<real>, m: real)
    requires |kept| == |slopes| > 0
    ensures var n := |kept| - 1;
      var r := Classify(flp, kept, slopes, m);
      var b := Classify(flp, kept[..n], slopes[..n], m);
      (slopes[n] < m ==> r.small == b.small + [kept[n]] && r.equal == b.equal && r.large == b.large) &&
      (slopes[n] > m ==> r.small == b.small && r.equal == b.equal && r.large == b.large + [kept[n]]) &&
      (slopes[n] == m ==> r.small == b.small && r.equal == b.equal + [kept[n]] && r.large == b.large) &&
      (slopes[n] < m ==> kept[n] in r.small) &&
      (slopes[n] > m ==> kept[n] in r.large) &&
      (slopes[n] == m ==> kept[n] in r.equal)
  {
  }

  /** The buckets hold the pairs, each once. */
  lemma {:induction false} ClassifyPartitions(flp: bool, kept: seq<Pair>, slopes: seq<real>, m: real)
    requires |kept| == |slopes|
    ensures var r := Classify(flp, kept, slopes, m);
      multiset(r.small) + multiset(r.equal) + multiset(r.large) == multiset(kept)
  {
    if kept != [] {
      var n := |kept| - 1;
      var q := kept[n];
      ClassifyPartitions(flp, kept[..n], slopes[..n], m);
      ClassifyStep(flp, kept, slopes, m);
      var r := Classify(flp, kept, slopes, m);
      var b := Classify(flp, kept[..n], slopes[..n], m);
      MultisetSnoc(kept[..n], q);
      assert kept[..n] + [q] == kept;
      if slopes[n] < m {
        MultisetSnoc(b.small, q);
      } else if slopes[n] > m {
        MultisetSnoc(b.large, q);
      } else {
        MultisetSnoc(b.equal, q);
      }
    }
  }

  /** Each pair goes to the bucket its slope calls for. */
  lemma {:induction false} ClassifyBySlope(flp: bool, kept: seq<Pair>, slopes: seq<real>, m: real)
    requires |kept| == |slopes|
    ensures var r := Classify(flp, kept, slopes, m);
      forall i :: 0 <= i < |kept| ==>
        (slopes[i] < m ==> kept[i] in r.small) &&
        (slopes[i] == m ==> kept[i] in r.equal) &&
        (slopes[i] > m ==> kept[i] in r.large)
  {
    if kept != [] {
      var n := |kept| - 1;
      var r := Classify(flp, kept, slopes, m);
      var b := Classify(flp, kept[..n], slopes[..n], m);
      ClassifyBySlope(flp, kept[..n], slopes[..n], m);
      ClassifyStep(flp, kept, slopes, m);
      assert b.small <= r.small && b.equal <= r.equal && b.large <= r.large;
      forall i | 0 <= i < |kept|
        ensures (slopes[i] < m ==> kept[i] in r.small) && (slopes[i] == m ==> kept[i] in r.equal) &&
          (slopes[i] > m ==> kept[i] in r.large)
      {
        if i < n {
          assert kept[..n][i] == kept[i] && slopes[..n][i] == slopes[i];
          InPrefix(b.small, r.small, kept[i]);
          InPrefix(b.equal, r.equal, kept[i]);
          InPrefix(b.large, r.large, kept[i]);
        }
      }
    }
  }

  /** Every bucket holds only pairs of `kept`. */
  lemma ClassifyWithin(flp: bool, kept: seq<Pair>, slopes: seq<real>, m: real)
    requires |kept| == |slopes|
    ensures var r := Classify(flp, kept, slopes, m);
      forall q :: q in r.small || q in r.equal || q in r.large ==> q in kept
  {
    var r := Classify(flp, kept, slopes, m);
    ClassifyPartitions(flp, kept, slopes, m);
    forall q | q in r.small || q in r.equal || q in r.large ensures q in kept {
      assert q in multiset(r.small) + multiset(r.equal) + multiset(r.large);
    }
  }

  /** A slope equal to `m` puts its pair in `equal`, so `equal` is not empty. */
  lemma ClassifyEqualNonEmpty(flp: bool, kept: seq<Pair>, slopes: seq<real>, m: real)
    requires |kept| == |slopes| && m in slopes
    ensures |Classify(flp, kept, slopes, m).equal| >= 1
  {
    ClassifyBySlope(flp, kept, slopes, m);
    var i :| 0 <= i < |slopes| && slopes[i] == m;
    assert kept[i] in Classify(flp, kept, slopes, m).equal;
  }

  /** The first scan over the points: the first point of greatest intercept at slope `m`. */
  function FirstMax(points: seq<Point>, m: real): (r: Point)
    requires |points| > 0
    ensures r in points
    ensures forall p :: p in points ==> Intercept(p, m) <= Intercept(r, m)
    ensures exists j :: 0 <= j < |points| && points[j] == r && forall i :: 0 <= i < j ==> Intercept(points[i], m) < Intercept(r, m)
  {
    if |points| == 1 then points[0]
    else
      var init := points[..|points| - 1];
      var b := FirstMax(init, m);
      var last := |points| - 1;
      assert points == init + [points[last]];
      if Intercept(b, m) < Intercept(points[last], m) then
        assert forall i :: 0 <= i < last ==> points[i] in init;
        points[last]
      else
        var j :| 0 <= j < |init| && init[j] == b && forall i :: 0 <= i < j ==> Intercept(init[i], m) < Intercept(b, m);
        assert points[j] == b;
        b
  }

  /** The second scan: the points whose intercept at slope `m` is exactly `mi`, in order. */
  function OnLine(points: seq<Point>, m: real, mi: real): (r: seq<Point>)
    ensures |r| <= |points|
    ensures forall t :: t in r <==> t in points && Intercept(t, m) == mi
  {
    if points == [] then []
    else
      var init := points[..|points| - 1];
      assert points == init + [points[|points| - 1]];
      OnLine(init, m, mi) + (if Intercept(points[|points| - 1], m) == mi then [points[|points| - 1]] else [])
  }

  /** `left`: the (x, then y) smallest element, the first one on a tie. */
  function LexMin(s: seq<Point>): (r: Point)
    requires |s| > 0
    ensures r in s && forall t :: t in s ==> LexLeq(r, t)
  {
    if |s| == 1 then s[0]
    else
      var init := s[..|s| - 1];
      var b := LexMin(init);
      assert s == init + [s[|s| - 1]];
      if LexLess(s[|s| - 1], b) then s[|s| - 1] else b
  }

  /** `right`: the (x, then y) largest element, the first one on a tie. */
  function LexMax(s: seq<Point>): (r: Point)
    requires |s| > 0
    ensures r in s && forall t :: t in s ==> LexLeq(t, r)
  {
    if |s| == 1 then s[0]
    else
      var init := s[..|s| - 1];
      var b := LexMax(init);
      assert s == init + [s[|s| - 1]];
      if LexLess(b, s[|s| - 1]) then s[|s| - 1] else b
  }

  /** The pairing and vertical-pair loops of a round: the pairs, what the splice loop leaves, and the candidates so far. */
  datatype Prep = Prep(pairs: seq<Pair>, split: Split, candidates: seq<Point>)

  function Prepare(points: seq<Point>, flp: bool): (r: Prep)
    ensures |r.candidates| + 2 * |r.split.kept| <= |points|
    ensures Distinct(r.candidates)
    ensures forall t :: t in r.candidates ==> t in points
    ensures forall q :: q in r.split.kept ==> q.lo in points && q.hi in points && !Vertical(q)
  {
    var set0 := Dedup(points);
    var pairs := Pairing(set0);
    var split := SplitVertical(flp, pairs);
    var candidates := AddAll(Leftover(set0), split.tops);
    AddAllMembers(Leftover(set0), split.tops);
    assert |set0| == 2 * |pairs| + |set0| % 2;
    assert forall t :: t in candidates ==> t in points by {
      forall t | t in candidates ensures t in points {
        if t in split.tops {
          var q :| q in pairs && t == Upper(q);
        }
      }
    }
    Prep(pairs, split, candidates)
  }

  /** One round of `getBridge` up to the test against the median, with every intermediate value. */
  datatype Round = Round(
    prep: Prep, slopes: seq<real>, slope: real,
    buckets: Buckets, maxPoint: Point, maxSet: seq<Point>, left: Point, right: Point)

  /**
   * The round on `points` (of any size but 2): pairing, vertical pairs, median slope, buckets, and
   * the supporting line. Every pair vertical leaves no slope, and the source then throws.
   */
  function RoundOf(edition: Edition, points: seq<Point>, flp: bool): (r: Result<Round>)
    ensures r.Ok? ==> r.value.maxPoint in points
    ensures r.Ok? ==> r.value.left in points && r.value.right in points && LexLeq(r.value.left, r.value.right)
    ensures r.Ok? ==> var b := r.value.buckets;
      |r.value.prep.candidates| + 2 * (|b.small| + |b.equal| + |b.large|) <= |points| && |b.equal| >= 1
    ensures r.Ok? ==> var b := r.value.buckets;
      forall q :: q in b.small || q in b.equal || q in b.large ==> q.lo in points && q.hi in points
    ensures r.Ok? ==> var b := r.value.buckets;
      multiset(b.small) + multiset(b.equal) + multiset(b.large) == multiset(r.value.prep.split.kept)
  {
    var prep := Prepare(points, flp);
    var kept := prep.split.kept;
    var slopes := Slopes(kept);
    if |slopes| == 0 then Err(NoMedianSlope)
    else
      var m := MedianSlope(edition, slopes);
      var buckets := Classify(flp, kept, slopes, m);
      ClassifyPartitions(flp, kept, slopes, m);
      ClassifyWithin(flp, kept, slopes, m);
      ClassifyEqualNonEmpty(flp, kept, slopes, m);
      var maxPoint := FirstMax(points, m);
      var maxSet := Dedup(OnLine(points, m, Intercept(maxPoint, m)));
      assert maxPoint in maxSet;
      var left, right := LexMin(maxSet), LexMax(maxSet);
      Ok(Round(prep, slopes, m, buckets, maxPoint, maxSet, left, right))
  }

  /** The records a round pushes up to "hrc" (which carries `left` and `right` as they are, even when `flp`). */
  function RoundEvents(flp: bool, r: Round): seq<KpsAction> {
    PairLines(flp, r.prep.pairs) + r.prep.split.events + r.buckets.events +
      [Dsup(Show(flp, r.maxPoint), r.slope), Hrc(r.left, r.right)]
  }

  /**
   * `left` and `right` are the (x, then y) smallest and largest of the points that maximise
   * `y - med_slope * x`.
   */
  lemma SupportingLine(edition: Edition, points: seq<Point>, flp: bool)
    requires RoundOf(edition, points, flp).Ok?
    ensures var r := RoundOf(edition, points, flp).value;
      var top := Intercept(r.left, r.slope);
      (forall p :: p in points ==> Intercept(p, r.slope) <= top) &&
      Intercept(r.right, r.slope) == top &&
      (forall p :: p in points && Intercept(p, r.slope) == top ==> LexLeq(r.left, p) && LexLeq(p, r.right))
  {
  }

  /** What the pruning loops leave: the candidate set and the records they push. */
  datatype Pruned = Pruned(candidates: seq<Point>, events: seq<KpsAction>)

  /** The loop over `[pt, point]` pairs that keeps `point` (`pair[1]`) and hides `pt`. */
  function KeepHi(flp: bool, ps: seq<Pair>, c: seq<Point>): (r: Pruned)
    ensures Distinct(c) ==> Distinct(r.candidates)
    ensures |r.candidates| <= |c| + |ps|
    ensures forall t :: t in r.candidates ==> t in c || exists q :: q in ps && t == q.hi
  {
    if ps == [] then Pruned(c, [])
    else
      var init := ps[..|ps| - 1];
      var q := ps[|ps| - 1];
      var h := KeepHi(flp, init, c);
      assert forall p :: p in init ==> p in ps;
      Pruned(SetAdd(h.candidates, q.hi), h.events + [Hidp([Show(flp, q.lo)])])
  }

  /** The loop over `[point, pt]` pairs that keeps `point` (`pair[0]`) and hides `pt`. */
  function KeepLo(flp: bool, ps: seq<Pair>, c: seq<Point>): (r: Pruned)
    ensures Distinct(c) ==> Distinct(r.candidates)
    ensures |r.candidates| <= |c| + |ps|
    ensures forall t :: t in r.candidates ==> t in c || exists q :: q in ps && t == q.lo
  {
    if ps == [] then Pruned(c, [])
    else
      var init := ps[..|ps| - 1];
      var q := ps[|ps| - 1];
      var h := KeepLo(flp, init, c);
      assert forall p :: p in init ==> p in ps;
      Pruned(SetAdd(h.candidates, q.lo), h.events + [Hidp([Show(flp, q.hi)])])
  }

  /** The loop that keeps both points of every pair. */
  function KeepBoth(ps: seq<Pair>, c: seq<Point>): (r: seq<Point>)
    ensures Distinct(c) ==> Distinct(r)
    ensures |r| <= |c| + 2 * |ps|
    ensures forall t :: t in r ==> t in c || exists q :: q in ps && (t == q.lo || t == q.hi)
  {
    if ps == [] then c
    else
      var init := ps[..|ps| - 1];
      var q := ps[|ps| - 1];
      var k := KeepBoth(init, c);
      var r := SetAdd(SetAdd(k, q.lo), q.hi);
      assert forall t :: t in r ==> t in c || exists q' :: q' in ps && (t == q'.lo || t == q'.hi) by {
        forall t | t in r && t !in c ensures exists q' :: q' in ps && (t == q'.lo || t == q'.hi) {
          if t in k {
            var q' :| q' in init && (t == q'.lo || t == q'.hi);
            assert q' in ps;
          } else {
            assert q in ps;
          }
        }
      }
      r
  }

  /**
   * The two pruning branches, in the source's order. When the bridge lies left of the median, pairs
   * of slope at least the median slope keep only `pair[1]`; when it lies right, pairs of slope at
   * most the median slope keep only `pair[0]`; the other bucket keeps both points.
   */
  function Prune(flp: bool, r: Round, median: real): (p: Pruned)
    ensures Distinct(r.prep.candidates) ==> Distinct(p.candidates)
  {
    var b := r.buckets;
    var first :=
      if r.right.x <= median then
        var h := KeepHi(flp, b.large + b.equal, r.prep.candidates);
        Pruned(KeepBoth(b.small, h.candidates), h.events)
      else Pruned(r.prep.candidates, []);
    if r.left.x > median then
      var h := KeepLo(flp, b.small + b.equal, first.candidates);
      Pruned(KeepBoth(b.large, h.candidates), first.events + h.events)
    else first
  }

  /** At most one pruning branch runs, and one does whenever the supporting line misses the median. */
  lemma PruneBranches(edition: Edition, points: seq<Point>, flp: bool, median: real)
    requires RoundOf(edition, points, flp).Ok?
    ensures var r := RoundOf(edition, points, flp).value;
      !(r.right.x <= median && r.left.x > median) &&
      (!(r.left.x <= median && r.right.x >= median) <==> (r.right.x < median || r.left.x > median))
  {
  }

  /** The result of `getBridge`: its two ends and the records pushed on the way. */
  datatype Bridge = Bridge(left: Point, right: Point, trace: seq<KpsAction>)

  /**
   * `getBridge`. Two points are returned sorted, unchecked. Otherwise a round either finds a
   * supporting line whose ends straddle `median`, or prunes and recurses on the candidates.
   */
  function GetBridge(edition: Edition, points: seq<Point>, median: real, flp: bool): (r: Result<Bridge>)
    requires Distinct(points)
    ensures r.Ok? ==> r.value.left in points && r.value.right in points
    ensures r.Ok? ==> LexLeq(r.value.left, r.value.right)
    ensures r.Ok? ==> (r.value.left.x <= median <= r.value.right.x) || LexLess(r.value.left, r.value.right)
    ensures r.Err? ==> r.fault == NoMedianSlope
    decreases |points|
  {
    if |points| == 2 then
      var s := SortLex(points);
      SortLexDistinct(points);
      assert s[0] != s[1] && s[0] in s && s[1] in s;
      Ok(Bridge(s[0], s[1], []))
    else
      match RoundOf(edition, points, flp)
      case Err(f) => Err(f)
      case Ok(round) =>
        if round.left.x <= median && round.right.x >= median then
          Ok(Bridge(round.left, round.right, RoundEvents(flp, round)))
        else
          var pruned := Prune(flp, round, median);
          CandidatesShrink(edition, points, flp, median);
          match GetBridge(edition, pruned.candidates, median, flp)
          case Err(f) => Err(f)
          case Ok(b) => Ok(Bridge(b.left, b.right, RoundEvents(flp, round) + pruned.events + [Radl] + b.trace))
  }

  /**
   * How a bridge was found, read off its records: either they end with the "hrc" of its two ends
   * and these straddle the median, or they are empty or end with the "radl" of a pruning, and the
   * two ends are the two different points of the base case.
   */
  predicate EndsWell(b: Bridge, median: real) {
    var t := b.trace;
    (t != [] && t[|t| - 1] == Hrc(b.left, b.right) && b.left.x <= median <= b.right.x) ||
    ((t == [] || t[|t| - 1] == Radl) && LexLess(b.left, b.right))
  }

  /** The two points of the base case come back strictly in (x, then y) order. */
  lemma BaseEnds(points: seq<Point>)
    requires Distinct(points) && |points| == 2
    ensures var s := SortLex(points); |s| == 2 && LexLess(s[0], s[1])
  {
    SortLexDistinct(points);
    assert points == [points[0], points[1]];
    MakePairSorts(points[0], points[1]);
  }

  /** A round's records end with its "hrc". */
  lemma RoundEventsEnd(flp: bool, r: Round)
    ensures var t := RoundEvents(flp, r); t != [] && t[|t| - 1] == Hrc(r.left, r.right)
  {
  }

  /** Records put in front of a bridge's, ending with a "radl", keep it `EndsWell`. */
  lemma EndsAfterPrune(b: Bridge, median: real, front: seq<KpsAction>)
    requires EndsWell(b, median)
    ensures EndsWell(Bridge(b.left, b.right, front + [Radl] + b.trace), median)
  {
    var t := front + [Radl] + b.trace;
    assert t[|t| - 1] == if b.trace == [] then Radl else b.trace[|b.trace| - 1];
  }

  /**
   * `getBridge` returns `[left, right]` from a round only when `left.x <= median <= right.x`; any
   * other bridge is the sorted pair of the two-point base case. Its records are empty exactly when
   * it was called on two points.
   */
  lemma {:induction false} GetBridgeEnds(edition: Edition, points: seq<Point>, median: real, flp: bool)
    requires Distinct(points)
    ensures var r := GetBridge(edition, points, median, flp); r.Ok? ==> EndsWell(r.value, median)
    ensures var r := GetBridge(edition, points, median, flp); (r.Ok? && r.value.trace == []) <==> |points| == 2
    decreases |points|
  {
    GetBridgeStops(edition, points, median, flp);
    if |points| == 2 {
      BaseEnds(points);
    } else if RoundOf(edition, points, flp).Ok? {
      var round := RoundOf(edition, points, flp).value;
      if round.left.x <= median && round.right.x >= median {
        RoundEventsEnd(flp, round);
      } else {
        var pruned := Prune(flp, round, median);
        GetBridgeRecurses(edition, points, median, flp);
        GetBridgeEnds(edition, pruned.candidates, median, flp);
        var b := GetBridge(edition, pruned.candidates, median, flp);
        if b.Ok? {
          EndsAfterPrune(b.value, median, RoundEvents(flp, round) + pruned.events);
        }
      }
    }
  }

  /** Where `getBridge` returns without recursing: two points, a round that throws, or one that straddles the median. */
  lemma GetBridgeStops(edition: Edition, points: seq<Point>, median: real, flp: bool)
    requires Distinct(points)
    ensures |points| == 2 ==> var s := SortLex(points);
      GetBridge(edition, points, median, flp) == Ok(Bridge(s[0], s[1], []))
    ensures |points| != 2 && RoundOf(edition, points, flp).Err? ==>
      GetBridge(edition, points, median, flp) == Err(RoundOf(edition, points, flp).fault)
    ensures |points| != 2 && RoundOf(edition, points, flp).Ok? ==>
      var round := RoundOf(edition, points, flp).value;
      round.left.x <= median && round.right.x >= median ==>
      GetBridge(edition, points, median, flp) == Ok(Bridge(round.left, round.right, RoundEvents(flp, round)))
  {
  }

  /** A round that misses the median hands `getBridge` on to the pruned candidates. */
  lemma GetBridgeRecurses(edition: Edition, points: seq<Point>, median: real, flp: bool)
    requires Distinct(points) && |points| != 2 && RoundOf(edition, points, flp).Ok?
    requires var round := RoundOf(edition, points, flp).value;
      !(round.left.x <= median && round.right.x >= median)
    ensures var round := RoundOf(edition, points, flp).value;
      var p := Prune(flp, round, median);
      Distinct(p.candidates) && |p.candidates| < |points| &&
      GetBridge(edition, points, median, flp) ==
        match GetBridge(edition, p.candidates, median, flp)
        case Err(f) => Err(f)
        case Ok(b) => Ok(Bridge(b.left, b.right, RoundEvents(flp, round) + p.events + [Radl] + b.trace))
  {
    CandidatesShrink(edition, points, flp, median);
  }

  /** The pruning loops add at most one point for each pair of the bucket next to the bridge side, and two for the other. */
  lemma PruneSize(flp: bool, r: Round, median: real)
    requires !(r.right.x <= median && r.left.x > median)
    ensures var b := r.buckets;
      |Prune(flp, r, median).candidates| <= |r.prep.candidates| + |b.equal| + |b.small| + |b.large| + (if r.right.x <= median then |b.small| else if r.left.x > median then |b.large| else 0)
  {
  }

  /** The pruning loops add only points of the bucketed pairs. */
  lemma PruneWithin(flp: bool, r: Round, median: real, pool: seq<Point>)
    requires forall t :: t in r.prep.candidates ==> t in pool
    requires forall q :: q in r.buckets.small || q in r.buckets.equal || q in r.buckets.large ==> q.lo in pool && q.hi in pool
    ensures forall t :: t in Prune(flp, r, median).candidates ==> t in pool
  {
  }

  /**
   * The candidates a round passes on are input points without repetition, and fewer than the
   * input: the pair of median slope sits in `equal` and gives up one of its points.
   */
  lemma CandidatesShrink(edition: Edition, points: seq<Point>, flp: bool, median: real)
    requires Distinct(points) && RoundOf(edition, points, flp).Ok?
    ensures var p := Prune(flp, RoundOf(edition, points, flp).value, median);
      Distinct(p.candidates) && |p.candidates| < |points| &&
      forall t :: t in p.candidates ==> t in points
  {
    var r := RoundOf(edition, points, flp).value;
    PruneBranches(edition, points, flp, median);
    PruneSize(flp, r, median);
    PruneWithin(flp, r, median, points);
  }

  /** Two pairs with no point in common. */
  predicate Apart(p: Pair, q: Pair) {
    p.lo != q.lo && p.lo != q.hi && p.hi != q.lo && p.hi != q.hi
  }

  /** No pair is one point twice, and no two pairs share a point. */
  predicate PairsApart(pairs: seq<Pair>) {
    (forall i :: 0 <= i < |pairs| ==> pairs[i].lo != pairs[i].hi) &&
    forall i, j :: 0 <= i < j < |pairs| ==> Apart(pairs[i], pairs[j])
  }

  /** Pairing the elements of a set gives pairs that share no point. */
  lemma {:induction false} PairingApart(s: seq<Point>)
    requires Distinct(s)
    ensures PairsApart(Pairing(s))
    decreases |s|
  {
    if |s| >= 2 {
      var rest := s[2..];
      DistinctSuffix(s, 2);
      PairingApart(rest);
      var head, tail := MakePair(s[0], s[1]), Pairing(rest);
      assert Pairing(s) == [head] + tail;
      ConsApart(head, tail);
    }
  }

  /** A pair of two different points sharing none with the pairs after it keeps them apart. */
  lemma ConsApart(head: Pair, tail: seq<Pair>)
    requires PairsApart(tail) && head.lo != head.hi
    requires forall q :: q in tail ==> Apart(head, q)
    ensures PairsApart([head] + tail)
  {
    var p := [head] + tail;
    forall i, j | 0 <= i < j < |p| ensures Apart(p[i], p[j]) {
      assert p[j] == tail[j - 1] && tail[j - 1] in tail;
      if i > 0 {
        assert p[i] == tail[i - 1];
      }
    }
    forall i | 0 <= i < |p| ensures p[i].lo != p[i].hi {
      if i > 0 {
        assert p[i] == tail[i - 1];
      }
    }
  }

  /** Two different pairs of pairs that share no point share no point. */
  lemma ApartMembers(pairs: seq<Pair>, p: Pair, q: Pair)
    requires PairsApart(pairs) && p in pairs && q in pairs && p != q
    ensures Apart(p, q)
  {
    var i :| 0 <= i < |pairs| && pairs[i] == p;
    var j :| 0 <= j < |pairs| && pairs[j] == q;
    if j < i {
      assert Apart(pairs[j], pairs[i]);
    }
  }

  /** Pairs that share no point are all different. */
  lemma ApartDistinct(pairs: seq<Pair>)
    requires PairsApart(pairs)
    ensures Distinct(pairs)
  {
    forall i, j | 0 <= i < j < |pairs| ensures pairs[i] != pairs[j] {
      assert Apart(pairs[i], pairs[j]);
    }
  }

  /** The point left over by an odd-sized set is in no pair. */
  lemma {:induction false} PairingMissesLast(s: seq<Point>)
    requires Distinct(s) && |s| % 2 == 1
    ensures forall q :: q in Pairing(s) ==> q.lo != s[|s| - 1] && q.hi != s[|s| - 1]
    decreases |s|
  {
    if |s| >= 3 {
      var rest := s[2..];
      DistinctSuffix(s, 2);
      PairingMissesLast(rest);
      assert rest[|rest| - 1] == s[|s| - 1];
      assert Pairing(s) == [MakePair(s[0], s[1])] + Pairing(rest);
    }
  }

  /** The splice loop keeps different pairs different. */
  lemma {:induction false} SplitKeptDistinct(flp: bool, pairs: seq<Pair>)
    requires Distinct(pairs)
    ensures Distinct(SplitVertical(flp, pairs).kept)
  {
    if pairs != [] {
      var init, q := pairs[..|pairs| - 1], pairs[|pairs| - 1];
      DistinctInit(pairs);
      SplitKeptDistinct(flp, init);
      var kept := SplitVertical(flp, init).kept;
      assert q !in kept;
      if !Vertical(q) {
        assert SplitVertical(flp, pairs).kept == kept + [q];
        forall i, j | 0 <= i < j < |kept + [q]| ensures (kept + [q])[i] != (kept + [q])[j] {
          if j < |kept| {
            assert (kept + [q])[i] == kept[i] && (kept + [q])[j] == kept[j];
          } else {
            assert (kept + [q])[i] == kept[i] && kept[i] in kept;
          }
        }
      }
    }
  }

  /** The loop of `KeepHi` keeps the candidates it starts from and adds `pair[1]` of every pair. */
  lemma {:induction false} KeepHiHolds(flp: bool, ps: seq<Pair>, c: seq<Point>)
    ensures forall t :: t in c ==> t in KeepHi(flp, ps, c).candidates
    ensures forall q :: q in ps ==> q.hi in KeepHi(flp, ps, c).candidates
  {
    if ps != [] {
      var init := ps[..|ps| - 1];
      KeepHiHolds(flp, init, c);
      assert ps == init + [ps[|ps| - 1]];
    }
  }

  /** The loop of `KeepLo` keeps the candidates it starts from and adds `pair[0]` of every pair. */
  lemma {:induction false} KeepLoHolds(flp: bool, ps: seq<Pair>, c: seq<Point>)
    ensures forall t :: t in c ==> t in KeepLo(flp, ps, c).candidates
    ensures forall q :: q in ps ==> q.lo in KeepLo(flp, ps, c).candidates
  {
    if ps != [] {
      var init := ps[..|ps| - 1];
      KeepLoHolds(flp, init, c);
      assert ps == init + [ps[|ps| - 1]];
    }
  }

  /** The loop of `KeepBoth` keeps the candidates it starts from and adds both points of every pair. */
  lemma {:induction false} KeepBothHolds(ps: seq<Pair>, c: seq<Point>)
    ensures forall t :: t in c ==> t in KeepBoth(ps, c)
    ensures forall q :: q in ps ==> q.lo in KeepBoth(ps, c) && q.hi in KeepBoth(ps, c)
  {
    if ps != [] {
      var init := ps[..|ps| - 1];
      KeepBothHolds(init, c);
      assert ps == init + [ps[|ps| - 1]];
    }
  }

  /** Besides the ends of `e`, the round starts from a candidate or a kept pair apart from `e`. */
  predicate Sourced(prep: Prep, e: Pair) {
    (exists t :: t in prep.candidates && t != e.lo && t != e.hi) ||
    (exists q :: q in prep.split.kept && Apart(q, e))
  }

  /**
   * Besides a kept pair `e`, a round has another source of candidates: a candidate found before the
   * buckets that is not a point of `e` (the point left over by the pairing, or the top of a vertical
   * pair), or another kept pair, which shares no point with `e`.
   */
  lemma OtherSource(points: seq<Point>, flp: bool, e: Pair)
    requires Distinct(points) && |points| >= 3
    requires e in Prepare(points, flp).split.kept
    ensures Sourced(Prepare(points, flp), e)
  {
    var prep := Prepare(points, flp);
    DedupDistinct(points);
    var pairs := Pairing(points);
    var split := SplitVertical(flp, pairs);
    assert prep.split == split && prep.candidates == AddAll(Leftover(points), split.tops);
    AddAllMembers(Leftover(points), split.tops);
    PairingApart(points);
    if |points| % 2 == 1 {
      var t := points[|points| - 1];
      assert t in Leftover(points);
      PairingMissesLast(points);
      assert t in prep.candidates && t != e.lo && t != e.hi;
    } else if split.tops != [] {
      var t := split.tops[0];
      TopApart(flp, pairs, e, t);
      assert t in prep.candidates && t != e.lo && t != e.hi;
    } else {
      var q := AnotherPair(flp, pairs, e);
      assert q in prep.split.kept && Apart(q, e);
    }
  }

  /** The top of a vertical pair is no point of a kept pair. */
  lemma TopApart(flp: bool, pairs: seq<Pair>, e: Pair, t: Point)
    requires PairsApart(pairs)
    requires e in SplitVertical(flp, pairs).kept && t in SplitVertical(flp, pairs).tops
    ensures t != e.lo && t != e.hi
  {
    var v :| v in pairs && Vertical(v) && t == Upper(v);
    ApartMembers(pairs, v, e);
  }

  /** With no vertical pair, at least two pairs are kept, so a kept pair has another beside it. */
  lemma AnotherPair(flp: bool, pairs: seq<Pair>, e: Pair) returns (q: Pair)
    requires PairsApart(pairs) && |pairs| >= 2
    requires e in SplitVertical(flp, pairs).kept && SplitVertical(flp, pairs).tops == []
    ensures q in SplitVertical(flp, pairs).kept && Apart(q, e)
  {
    var kept := SplitVertical(flp, pairs).kept;
    ApartDistinct(pairs);
    SplitKeptDistinct(flp, pairs);
    q := if kept[0] != e then kept[0] else kept[1];
    ApartMembers(pairs, q, e);
  }

  /** Two different elements make a sequence at least two long. */
  lemma TwoIn<T>(s: seq<T>, a: T, b: T)
    requires a in s && b in s && a != b
    ensures |s| >= 2
  {
  }

  /**
   * When the supporting line misses the median, the candidates passed on hold at least two points:
   * the kept end of the pair of median slope, and one more from `OtherSource`.
   */
  lemma CandidatesStayTwo(edition: Edition, points: seq<Point>, flp: bool, median: real)
    requires Distinct(points) && |points| >= 3 && RoundOf(edition, points, flp).Ok?
    requires var r := RoundOf(edition, points, flp).value; !(r.left.x <= median && r.right.x >= median)
    ensures |Prune(flp, RoundOf(edition, points, flp).value, median).candidates| >= 2
  {
    var r := RoundOf(edition, points, flp).value;
    assert r.prep == Prepare(points, flp);
    var e := r.buckets.equal[0];
    assert e in multiset(r.buckets.equal);
    assert e in multiset(r.prep.split.kept);
    OtherSource(points, flp, e);
    PruneKeepsTwo(flp, r, median, e);
  }

  /** `CandidatesStayTwo` for a round given by its parts, whichever pruning branch runs. */
  lemma PruneKeepsTwo(flp: bool, r: Round, median: real, e: Pair)
    requires var b := r.buckets;
      multiset(b.small) + multiset(b.equal) + multiset(b.large) == multiset(r.prep.split.kept)
    requires e in r.buckets.equal && Sourced(r.prep, e)
    requires (r.right.x <= median && r.left.x <= median) || (r.right.x > median && r.left.x > median)
    ensures |Prune(flp, r, median).candidates| >= 2
  {
    if r.right.x <= median {
      PruneHiKeepsTwo(flp, r, median, e);
    } else {
      PruneLoKeepsTwo(flp, r, median, e);
    }
  }

  /**
   * Pruning when the bridge lies left of the median keeps `pair[1]` of the median-slope pair `e`,
   * every earlier candidate, and a point of every other pair.
   */
  lemma PruneHiKeepsTwo(flp: bool, r: Round, median: real, e: Pair)
    requires r.right.x <= median && r.left.x <= median
    requires var b := r.buckets;
      multiset(b.small) + multiset(b.equal) + multiset(b.large) == multiset(r.prep.split.kept)
    requires e in r.buckets.equal
    requires Sourced(r.prep, e)
    ensures |Prune(flp, r, median).candidates| >= 2
  {
    var b := r.buckets;
    var h := KeepHi(flp, b.large + b.equal, r.prep.candidates);
    var c := KeepBoth(b.small, h.candidates);
    assert Prune(flp, r, median).candidates == c;
    KeepHiHolds(flp, b.large + b.equal, r.prep.candidates);
    KeepBothHolds(b.small, h.candidates);
    assert e in b.large + b.equal;
    if t :| t in r.prep.candidates && t != e.lo && t != e.hi {
      TwoIn(c, e.hi, t);
    } else {
      var q :| q in r.prep.split.kept && Apart(q, e);
      assert q in multiset(b.small) + multiset(b.equal) + multiset(b.large);
      assert q in b.small || q in b.large + b.equal;
      TwoIn(c, e.hi, q.hi);
    }
  }

  /**
   * Pruning when the bridge lies right of the median keeps `pair[0]` of the median-slope pair `e`,
   * every earlier candidate, and a point of every other pair.
   */
  lemma PruneLoKeepsTwo(flp: bool, r: Round, median: real, e: Pair)
    requires !(r.right.x <= median) && r.left.x > median
    requires var b := r.buckets;
      multiset(b.small) + multiset(b.equal) + multiset(b.large) == multiset(r.prep.split.kept)
    requires e in r.buckets.equal
    requires Sourced(r.prep, e)
    ensures |Prune(flp, r, median).candidates| >= 2
  {
    var b := r.buckets;
    var h := KeepLo(flp, b.small + b.equal, r.prep.candidates);
    var c := KeepBoth(b.large, h.candidates);
    assert Prune(flp, r, median).candidates == c;
    KeepLoHolds(flp, b.small + b.equal, r.prep.candidates);
    KeepBothHolds(b.large, h.candidates);
    assert e in b.small + b.equal;
    if t :| t in r.prep.candidates && t != e.lo && t != e.hi {
      TwoIn(c, e.lo, t);
    } else {
      var q :| q in r.prep.split.kept && Apart(q, e);
      assert q in multiset(b.small) + multiset(b.equal) + multiset(b.large);
      assert q in b.large || q in b.small + b.equal;
      TwoIn(c, e.lo, q.lo);
    }
  }
}
