/**
 * JavaScript `Set`s iterate in insertion order, and the hull code depends on that order.
 * A set is modelled as a sequence without repeated elements.
 */
module OrderedSet {

  predicate Distinct<T(==,!new)>(s: seq<T>) {
    forall i, j :: 0 <= i < j < |s| ==> s[i] != s[j]
  }

  /** `set.add(x)`: appends `x` unless it is already present. */
  function SetAdd<T(==,!new)>(s: seq<T>, x: T): (r: seq<T>)
    ensures Distinct(s) ==> Distinct(r)
    ensures x in r && |r| <= |s| + 1
    ensures forall y :: y in r <==> y in s || y == x
  {
    if x in s then s else s + [x]
  }

  /** `add` of every element of `xs`, in order. */
  function AddAll<T(==,!new)>(s: seq<T>, xs: seq<T>): (r: seq<T>)
    ensures Distinct(s) ==> Distinct(r)
    ensures |r| <= |s| + |xs|
  {
    if xs == [] then s else SetAdd(AddAll(s, xs[..|xs| - 1]), xs[|xs| - 1])
  }

  /** The elements after `AddAll` are those of `s` and those of `xs`. */
  lemma {:induction false} AddAllMembers<T(!new)>(s: seq<T>, xs: seq<T>)
    ensures forall y :: y in AddAll(s, xs) <==> y in s || y in xs
  {
    if xs != [] {
      var init := xs[..|xs| - 1];
      AddAllMembers(s, init);
      assert xs == init + [xs[|xs| - 1]];
    }
  }

  /** Dropping the last element keeps a sequence free of repetition, and the element is not in what is left. */
  lemma DistinctInit<T(!new)>(s: seq<T>)
    requires Distinct(s) && |s| > 0
    ensures Distinct(s[..|s| - 1]) && s[|s| - 1] !in s[..|s| - 1]
  {
    var init := s[..|s| - 1];
    forall k | 0 <= k < |init| ensures init[k] != s[|s| - 1] {
      assert init[k] == s[k];
    }
  }

  /** Two sequences without repetition and without a common element concatenate without repetition. */
  lemma DistinctConcat<T(!new)>(a: seq<T>, b: seq<T>)
    requires Distinct(a) && Distinct(b) && forall t :: t in a ==> t !in b
    ensures Distinct(a + b)
  {
    var c := a + b;
    forall i, j | 0 <= i < j < |c| ensures c[i] != c[j] {
      if j < |a| {
        assert c[i] == a[i] && c[j] == a[j];
      } else if i >= |a| {
        assert c[i] == b[i - |a|] && c[j] == b[j - |a|];
      } else {
        assert c[i] == a[i] && a[i] in a && c[j] == b[j - |a|] && b[j - |a|] in b;
      }
    }
  }

  /** A suffix of a sequence without repetition has none either, and misses every element before it. */
  lemma DistinctSuffix<T(!new)>(s: seq<T>, k: nat)
    requires Distinct(s) && k <= |s|
    ensures Distinct(s[k..])
    ensures forall i :: 0 <= i < k ==> s[i] !in s[k..]
  {
    var rest := s[k..];
    forall i, j | 0 <= i < j < |rest| ensures rest[i] != rest[j] {
      assert rest[i] == s[i + k] && rest[j] == s[j + k];
    }
    forall i | 0 <= i < k ensures s[i] !in rest {
      forall m | 0 <= m < |rest| ensures rest[m] != s[i] {
        assert rest[m] == s[m + k];
      }
    }
  }

  /** `add` of one more element after the others. */
  lemma AddAllSnoc<T(!new)>(s: seq<T>, xs: seq<T>, x: T)
    ensures AddAll(s, xs + [x]) == SetAdd(AddAll(s, xs), x)
  {
    assert (xs + [x])[..|xs|] == xs;
  }

  /** `add` of the next element of `xs`, read front to back. */
  lemma AddAllPrefix<T(!new)>(s: seq<T>, xs: seq<T>, i: int)
    requires 0 <= i < |xs|
    ensures AddAll(s, xs[..i + 1]) == SetAdd(AddAll(s, xs[..i]), xs[i])
  {
    assert xs[..i + 1][..i] == xs[..i];
  }

  /** `new Set(xs)`. */
  function Dedup<T(==,!new)>(xs: seq<T>): (r: seq<T>)
    ensures Distinct(r) && |r| <= |xs|
    ensures forall y :: y in r <==> y in xs
  {
    AddAllMembers([], xs);
    AddAll([], xs)
  }

  lemma {:induction false} AddAllDistinct<T(!new)>(s: seq<T>, xs: seq<T>)
    requires Distinct(s + xs)
    ensures AddAll(s, xs) == s + xs
  {
    if xs != [] {
      var init := xs[..|xs| - 1];
      assert s + xs == (s + init) + [xs[|xs| - 1]];
      assert Distinct(s + init) by {
        forall i, j | 0 <= i < j < |s + init|
          ensures (s + init)[i] != (s + init)[j]
        {
          assert (s + init)[i] == (s + xs)[i] && (s + init)[j] == (s + xs)[j];
        }
      }
      AddAllDistinct(s, init);
      assert xs[|xs| - 1] !in s + init by {
        forall k | 0 <= k < |s + init|
          ensures (s + init)[k] != xs[|xs| - 1]
        {
          assert (s + init)[k] == (s + xs)[k];
          assert (s + xs)[|s + xs| - 1] == xs[|xs| - 1];
        }
      }
    }
  }

  /** On a sequence that already has no repetition, `new Set(xs)` keeps it as it is. */
  lemma DedupDistinct<T(!new)>(xs: seq<T>)
    requires Distinct(xs)
    ensures Dedup(xs) == xs
  {
    assert [] + xs == xs;
    AddAllDistinct([], xs);
  }

  /** `popFromSet`: removes and returns the element inserted first. */
  function PopFromSet<T(==,!new)>(s: seq<T>): (r: (T, seq<T>))
    requires |s| > 0
    ensures [r.0] + r.1 == s
    ensures Distinct(s) ==> r.0 !in r.1 && Distinct(r.1)
  {
    (s[0], s[1..])
  }
  /** The elements of a sequence, as a set: never more of them than the sequence's length, and exactly as many without repetition. */
  lemma {:induction false} ElementCount<T(!new)>(a: seq<T>)
    ensures |set t | t in a| <= |a|
    ensures Distinct(a) ==> |set t | t in a| == |a|
  {
    if a != [] {
      var init := a[..|a| - 1];
      var last := a[|a| - 1];
      ElementCount(init);
      assert a == init + [last];
      assert (set t | t in a) == (set t | t in init) + {last};
      if Distinct(a) {
        assert Distinct(init) by {
          forall i, j | 0 <= i < j < |init| ensures init[i] != init[j] {
            assert init[i] == a[i] && init[j] == a[j];
          }
        }
        assert last !in init by {
          forall k | 0 <= k < |init| ensures init[k] != last {
            assert init[k] == a[k];
          }
        }
      }
    }
  }

  lemma {:induction false} SubsetCard<T>(a: set<T>, b: set<T>)
    requires a <= b
    ensures |a| <= |b|
  {
    if a != {} {
      var x :| x in a;
      SubsetCard(a - {x}, b - {x});
    }
  }

  /** A sequence without repetition, drawn from `b` but missing one of its elements, is shorter than `b`. */
  lemma DistinctSubsetShorter<T(!new)>(a: seq<T>, b: seq<T>, x: T)
    requires Distinct(a) && forall t :: t in a ==> t in b
    requires x in b && x !in a
    ensures |a| < |b|
  {
    var sa := set t | t in a;
    var sb := set t | t in b;
    ElementCount(a);
    ElementCount(b);
    SubsetCard(sa, sb - {x});
  }
}
