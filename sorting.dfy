/**
 * The selection utilities of the Kirkpatrick–Seidel pipeline. Each of them calls the built-in
 * (stable) `Array.prototype.sort` and then indexes into the result. The library sort is not part
 * of this model: its result is specified by the insertion sorts below.
 */
module Sorting {
  import opened Geometry
  import opened OrderedSet

  predicate SortedLex(s: seq<Point>) {
    forall i, j :: 0 <= i < j < |s| ==> LexLeq(s[i], s[j])
  }

  predicate SortedReals(s: seq<real>) {
    forall i, j :: 0 <= i < j < |s| ==> s[i] <= s[j]
  }

  predicate SortedByY(s: seq<Point>) {
    forall i, j :: 0 <= i < j < |s| ==> s[i].y <= s[j].y
  }

  /** Puts `p` in front of the first element that does not come before it (stable). */
  function InsertLex(p: Point, s: seq<Point>): (r: seq<Point>)
    ensures multiset(r) == multiset(s) + multiset{p}
    ensures forall y :: y in r <==> y == p || y in s
  {
    if s == [] || !LexLess(s[0], p) then [p] + s
    else
      assert s == [s[0]] + s[1..];
      [s[0]] + InsertLex(p, s[1..])
  }

  lemma {:induction false} InsertLexSorted(p: Point, s: seq<Point>)
    requires SortedLex(s)
    ensures SortedLex(InsertLex(p, s))
  {
    if s != [] && LexLess(s[0], p) {
      var rest := InsertLex(p, s[1..]);
      InsertLexSorted(p, s[1..]);
      forall k | 0 <= k < |rest| ensures LexLeq(s[0], rest[k]) {
        assert rest[k] in rest;
      }
    }
  }

  lemma {:induction false} InsertLexDistinct(p: Point, s: seq<Point>)
    requires Distinct(s) && p !in s
    ensures Distinct(InsertLex(p, s))
  {
    if s != [] && LexLess(s[0], p) {
      var rest := InsertLex(p, s[1..]);
      InsertLexDistinct(p, s[1..]);
      forall k | 0 <= k < |rest| ensures s[0] != rest[k] {
        assert rest[k] in rest;
      }
    }
  }

  /** The array `points.sort(compareXY)` leaves: (x, then y) order. */
  function SortLex(s: seq<Point>): (r: seq<Point>)
    ensures multiset(r) == multiset(s) && |r| == |s|
    ensures forall y :: y in r <==> y in s
    ensures SortedLex(r)
  {
    if s == [] then [] else
      assert s == [s[0]] + s[1..];
      var rest := SortLex(s[1..]);
      InsertLexSorted(s[0], rest);
      InsertLex(s[0], rest)
  }

  /** Sorting keeps a sequence without repetition free of repetition. */
  lemma {:induction false} SortLexDistinct(s: seq<Point>)
    requires Distinct(s)
    ensures Distinct(SortLex(s))
  {
    if s != [] {
      var tail := s[1..];
      assert Distinct(tail) by {
        forall i, j | 0 <= i < j < |tail| ensures tail[i] != tail[j] {
          assert tail[i] == s[i + 1] && tail[j] == s[j + 1];
        }
      }
      assert s[0] !in tail by {
        forall k | 0 <= k < |tail| ensures tail[k] != s[0] {
          assert tail[k] == s[k + 1];
        }
      }
      SortLexDistinct(tail);
      InsertLexDistinct(s[0], SortLex(tail));
    }
  }

  /** Sorting a sequence that is already in (x, then y) order changes nothing. */
  lemma {:induction false} SortLexOfSorted(s: seq<Point>)
    requires SortedLex(s)
    ensures SortLex(s) == s
  {
    if s != [] {
      var tail := s[1..];
      assert SortedLex(tail) by {
        forall i, j | 0 <= i < j < |tail| ensures LexLeq(tail[i], tail[j]) {
          assert tail[i] == s[i + 1] && tail[j] == s[j + 1];
        }
      }
      SortLexOfSorted(tail);
      assert s == [s[0]] + tail;
      if tail != [] {
        assert !LexLess(tail[0], s[0]) by {
          assert tail[0] == s[1] && LexLeq(s[0], s[1]);
        }
      }
      assert InsertLex(s[0], tail) == s;
    }
  }

  function InsertReal(v: real, s: seq<real>): (r: seq<real>)
    ensures multiset(r) == multiset(s) + multiset{v}
    ensures forall y :: y in r <==> y == v || y in s
  {
    if s == [] || !(s[0] < v) then [v] + s
    else
      assert s == [s[0]] + s[1..];
      [s[0]] + InsertReal(v, s[1..])
  }

  lemma {:induction false} InsertRealSorted(v: real, s: seq<real>)
    requires SortedReals(s)
    ensures SortedReals(InsertReal(v, s))
  {
    if s != [] && s[0] < v {
      var rest := InsertReal(v, s[1..]);
      InsertRealSorted(v, s[1..]);
      forall k | 0 <= k < |rest| ensures s[0] <= rest[k] {
        assert rest[k] in rest;
      }
    }
  }

  /** The array `slopes.sort((a, b) => a - b)` leaves. */
  function SortReals(s: seq<real>): (r: seq<real>)
    ensures multiset(r) == multiset(s) && |r| == |s|
    ensures SortedReals(r)
  {
    if s == [] then [] else
      assert s == [s[0]] + s[1..];
      var rest := SortReals(s[1..]);
      InsertRealSorted(s[0], rest);
      InsertReal(s[0], rest)
  }

  function InsertByY(p: Point, s: seq<Point>): (r: seq<Point>)
    ensures multiset(r) == multiset(s) + multiset{p}
    ensures forall y :: y in r <==> y == p || y in s
  {
    if s == [] || !(s[0].y < p.y) then [p] + s
    else
      assert s == [s[0]] + s[1..];
      [s[0]] + InsertByY(p, s[1..])
  }

  lemma {:induction false} InsertByYSorted(p: Point, s: seq<Point>)
    requires SortedByY(s)
    ensures SortedByY(InsertByY(p, s))
  {
    if s != [] && s[0].y < p.y {
      var rest := InsertByY(p, s[1..]);
      InsertByYSorted(p, s[1..]);
      forall k | 0 <= k < |rest| ensures s[0].y <= rest[k].y {
        assert rest[k] in rest;
      }
    }
  }

  /** The array `arr.sort((a, b) => a[1] - b[1])` leaves (stable, by y only). */
  function SortByY(s: seq<Point>): (r: seq<Point>)
    ensures multiset(r) == multiset(s) && |r| == |s|
    ensures SortedByY(r)
  {
    if s == [] then [] else
      assert s == [s[0]] + s[1..];
      var rest := SortByY(s[1..]);
      InsertByYSorted(s[0], rest);
      InsertByY(s[0], rest)
  }

  /** How many elements of `s` are smaller than `v`. */
  function CountBelow(s: seq<real>, v: real): nat {
    if s == [] then 0 else (if s[0] < v then 1 else 0) + CountBelow(s[1..], v)
  }

  /** How many elements of `s` are at most `v`. */
  function CountAtMost(s: seq<real>, v: real): nat {
    if s == [] then 0 else (if s[0] <= v then 1 else 0) + CountAtMost(s[1..], v)
  }

  lemma {:induction false} CountInsert(x: real, s: seq<real>, v: real)
    ensures CountBelow(InsertReal(x, s), v) == CountBelow(s, v) + (if x < v then 1 else 0)
    ensures CountAtMost(InsertReal(x, s), v) == CountAtMost(s, v) + (if x <= v then 1 else 0)
  {
    if s != [] && s[0] < x {
      CountInsert(x, s[1..], v);
      assert ([s[0]] + InsertReal(x, s[1..]))[1..] == InsertReal(x, s[1..]);
    } else {
      assert ([x] + s)[1..] == s;
    }
  }

  /** Sorting does not change how many slopes lie below or at a value. */
  lemma {:induction false} CountSort(s: seq<real>, v: real)
    ensures CountBelow(SortReals(s), v) == CountBelow(s, v)
    ensures CountAtMost(SortReals(s), v) == CountAtMost(s, v)
  {
    if s != [] {
      CountSort(s[1..], v);
      CountInsert(s[0], SortReals(s[1..]), v);
    }
  }

  /** In an ascending sequence at most `k` elements are below the one at index `k`, and at least `k + 1` are not above it. */
  lemma {:induction false} CountSortedAt(t: seq<real>, k: nat)
    requires SortedReals(t) && k < |t|
    ensures CountBelow(t, t[k]) <= k
    ensures CountAtMost(t, t[k]) >= k + 1
  {
    if k == 0 {
      NoneBelow(t, t[0]);
    } else {
      assert t[1..][k - 1] == t[k];
      CountSortedAt(t[1..], k - 1);
    }
  }

  lemma {:induction false} NoneBelow(t: seq<real>, v: real)
    requires forall i :: 0 <= i < |t| ==> v <= t[i]
    ensures CountBelow(t, v) == 0
  {
    if t != [] {
      NoneBelow(t[1..], v);
    }
  }

  /** `quickselectSlopes`: sorts a copy of `slopes` (the argument is a value here, so it stays unchanged) and takes index `k`. */
  function QuickselectSlopes(slopes: seq<real>, k: nat): real
    requires k < |slopes|
  {
    SortReals(slopes)[k]
  }

  /** The slope `quickselectSlopes` returns is one of the slopes and is the `k`-th smallest of them. */
  lemma QuickselectSlopesIsOrderStatistic(slopes: seq<real>, k: nat)
    requires k < |slopes|
    ensures QuickselectSlopes(slopes, k) in slopes
    ensures CountBelow(slopes, QuickselectSlopes(slopes, k)) <= k < CountAtMost(slopes, QuickselectSlopes(slopes, k))
  {
    var t := SortReals(slopes);
    assert t[k] in multiset(t);
    CountSortedAt(t, k);
    CountSort(slopes, t[k]);
  }

  /** `quickselect`: sorts the caller's array in place into (x, then y) order and returns element `k`. */
  method Quickselect(a: array<Point>, k: int) returns (r: Point)
    requires 0 <= k < a.Length
    modifies a
    ensures a[..] == SortLex(old(a[..]))
    ensures r == a[k]
  {
    var sorted := SortLex(a[..]);
    var i := 0;
    while i < a.Length
      invariant 0 <= i <= a.Length
      invariant forall j :: 0 <= j < i ==> a[j] == sorted[j]
    {
      a[i] := sorted[i];
      i := i + 1;
    }
    assert a[..] == sorted;
    r := a[k];
  }
}
