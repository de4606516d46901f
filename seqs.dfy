/** Small facts about sequences that the proofs of both pipelines lean on. */
module Seqs {

  /** Concatenation regroups freely. */
  lemma Regroup<T>(a: seq<T>, b: seq<T>, c: seq<T>)
    ensures a + b + c == a + (b + c)
  {
  }

  /** Appending three pieces one after another appends their concatenation. */
  lemma Regroup3<T>(a: seq<T>, b: seq<T>, c: seq<T>, d: seq<T>)
    ensures a + b + c + d == a + (b + c + d)
  {
  }

  /** Appending four pieces one after another appends their concatenation. */
  lemma Regroup4<T>(a: seq<T>, b: seq<T>, c: seq<T>, d: seq<T>, e: seq<T>)
    ensures a + b + c + d + e == a + (b + c + d + e)
  {
  }

  lemma MultisetSnoc<T>(a: seq<T>, x: T)
    ensures multiset(a + [x]) == multiset(a) + multiset{x}
  {
  }

  lemma InPrefix<T>(a: seq<T>, b: seq<T>, x: T)
    requires a <= b
    ensures x in a ==> x in b
  {
    if x in a {
      var i :| 0 <= i < |a| && a[i] == x;
      assert b[i] == x;
    }
  }

  /** The two inner slices of a sequence, one element longer than those of its prefix. */
  lemma SnocSlices<T>(c: seq<T>)
    requires |c| >= 3
    ensures c[1..|c| - 1] == c[..|c| - 1][1..|c| - 2] + [c[|c| - 2]]
    ensures c[2..] == c[..|c| - 1][2..] + [c[|c| - 1]]
  {
  }

  /** `h` read back from `[x] + h`, with `f` appended. */
  lemma ConsSlices<T>(x: T, h: seq<T>, f: T)
    requires |h| > 0
    ensures var c := [x] + h;
      c[1..|c| - 1] + ([c[|c| - 1]] + [f]) == h + [f] && [h[0]] + c[2..] + [] == h
  {
    var c := [x] + h;
    assert c[1..|c| - 1] == h[..|h| - 1];
    assert c[2..] == h[1..];
    assert h == h[..|h| - 1] + [h[|h| - 1]];
  }
}
