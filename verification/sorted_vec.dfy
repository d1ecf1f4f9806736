/** Vectors kept sorted under a Rust `partial_cmp`-style comparison, in
    which `None` stands for a pair the comparison panics on; the
    lexicographic order Rust derives for vectors from the order of their
    elements; and `partition_point` with the predicate `v < d`, which the
    sorted vectors use for `insert` and `lower_bound`. */
module SortedVec {
  import opened Wrappers
  import opened Ints

  /** `a < b` under `cmp`. */
  predicate Lt<T>(cmp: (T, T) -> Option<Ordering>, a: T, b: T)
  {
    cmp(a, b) == Some(Less)
  }

  /** `a <= b` under `cmp`. */
  predicate Le<T>(cmp: (T, T) -> Option<Ordering>, a: T, b: T)
  {
    cmp(a, b) == Some(Less) || cmp(a, b) == Some(Equal)
  }

  /** The laws the comparisons here obey: a value is `Equal` to itself and
      to nothing else, `Greater` mirrors `Less`, and `Less` is transitive.
      Pairs the comparison panics on are allowed. */
  ghost predicate IsOrder<T(!new)>(cmp: (T, T) -> Option<Ordering>)
  {
    && (forall a :: cmp(a, a) == Some(Equal))
    && (forall a, b :: cmp(a, b) == Some(Equal) ==> a == b)
    && (forall a, b :: cmp(a, b) == Some(Greater) ==> cmp(b, a) == Some(Less))
    && (forall a, b, c :: cmp(a, b) == Some(Less) && cmp(b, c) == Some(Less) ==> cmp(a, c) == Some(Less))
  }

  /** Rust's comparison of two slices: the first pair of elements that is
      not `Equal` decides (a pair that panics makes the whole comparison
      panic); when one slice is a prefix of the other, the lengths decide. */
  function Lex<T>(cmp: (T, T) -> Option<Ordering>, a: seq<T>, b: seq<T>): Option<Ordering>
    decreases |a|
  {
    if a == [] || b == [] then Some(Cmp(|a|, |b|))
    else if cmp(a[0], b[0]) == Some(Equal) then Lex(cmp, a[1..], b[1..])
    else cmp(a[0], b[0])
  }

  lemma {:induction false} LexReflexive<T(!new)>(cmp: (T, T) -> Option<Ordering>, a: seq<T>)
    requires IsOrder(cmp)
    ensures Lex(cmp, a, a) == Some(Equal)
    decreases |a|
  {
    if a != [] {
      LexReflexive(cmp, a[1..]);
    }
  }

  lemma {:induction false} LexEqual<T(!new)>(cmp: (T, T) -> Option<Ordering>, a: seq<T>, b: seq<T>)
    requires IsOrder(cmp) && Lex(cmp, a, b) == Some(Equal)
    ensures a == b
    decreases |a|
  {
    if a != [] && b != [] {
      LexEqual(cmp, a[1..], b[1..]);
      assert a == [a[0]] + a[1..] && b == [b[0]] + b[1..];
    }
  }

  lemma {:induction false} LexMirror<T(!new)>(cmp: (T, T) -> Option<Ordering>, a: seq<T>, b: seq<T>)
    requires IsOrder(cmp) && Lex(cmp, a, b) == Some(Greater)
    ensures Lex(cmp, b, a) == Some(Less)
    decreases |a|
  {
    if a != [] && b != [] && cmp(a[0], b[0]) == Some(Equal) {
      LexMirror(cmp, a[1..], b[1..]);
    }
  }

  lemma {:induction false} LexTransitive<T(!new)>(cmp: (T, T) -> Option<Ordering>, a: seq<T>, b: seq<T>, c: seq<T>)
    requires IsOrder(cmp) && Lex(cmp, a, b) == Some(Less) && Lex(cmp, b, c) == Some(Less)
    ensures Lex(cmp, a, c) == Some(Less)
    decreases |a|
  {
    if a != [] && b != [] && c != [] && cmp(a[0], b[0]) == Some(Equal) && cmp(b[0], c[0]) == Some(Equal) {
      LexTransitive(cmp, a[1..], b[1..], c[1..]);
    }
  }

  /** Ascending under `cmp`: every element is at most every later one. */
  ghost predicate Sorted<T>(cmp: (T, T) -> Option<Ordering>, s: seq<T>)
  {
    forall i, j :: 0 <= i < j < |s| ==> Le(cmp, s[i], s[j])
  }

  /** Comparing any element of `s` with `d` does not panic. */
  predicate Comparable<T>(cmp: (T, T) -> Option<Ordering>, s: seq<T>, d: T)
  {
    forall i :: 0 <= i < |s| ==> cmp(s[i], d).Some?
  }

  /** `partition_point(|v| v < d)`: the end of the leading run of elements
      below `d`. */
  function PartitionPoint<T>(cmp: (T, T) -> Option<Ordering>, s: seq<T>, d: T): (r: nat)
    requires Comparable(cmp, s, d)
    ensures r <= |s|
    ensures forall i :: 0 <= i < r ==> Lt(cmp, s[i], d)
    ensures r < |s| ==> !Lt(cmp, s[r], d)
  {
    if s == [] || !Lt(cmp, s[0], d) then 0 else 1 + PartitionPoint(cmp, s[1..], d)
  }

  /** The number of elements below `d`. */
  function CountLess<T>(cmp: (T, T) -> Option<Ordering>, s: seq<T>, d: T): nat
  {
    if s == [] then 0 else (if Lt(cmp, s[0], d) then 1 else 0) + CountLess(cmp, s[1..], d)
  }

  /** On a sorted vector the partition point splits it into the elements
      below `d` and the rest, so it is the number of elements below `d`. */
  lemma PartitionPointCountsLess<T(!new)>(cmp: (T, T) -> Option<Ordering>, s: seq<T>, d: T)
    requires IsOrder(cmp) && Sorted(cmp, s) && Comparable(cmp, s, d)
    ensures forall i :: 0 <= i < |s| ==> (i < PartitionPoint(cmp, s, d) <==> Lt(cmp, s[i], d))
    ensures PartitionPoint(cmp, s, d) == CountLess(cmp, s, d)
  {
    BoundaryCountsLess(cmp, s, d, PartitionPoint(cmp, s, d));
  }

  /** The partition point is the number of elements below `d` whenever the
      vector is sorted. */
  lemma CountsLessWhenSorted<T(!new)>(cmp: (T, T) -> Option<Ordering>, s: seq<T>, d: T)
    requires IsOrder(cmp) && Comparable(cmp, s, d)
    ensures Sorted(cmp, s) ==> PartitionPoint(cmp, s, d) == CountLess(cmp, s, d)
    ensures Sorted(cmp, s) ==> forall i :: 0 <= i < |s| ==> (i < PartitionPoint(cmp, s, d) <==> Lt(cmp, s[i], d))
  {
    if Sorted(cmp, s) {
      PartitionPointCountsLess(cmp, s, d);
    }
  }

  /** On a sorted vector, an index whose left neighbour is below `d` and
      whose own element is not splits the vector into the elements below `d`
      and the rest. */
  lemma BoundaryCountsLess<T(!new)>(cmp: (T, T) -> Option<Ordering>, s: seq<T>, d: T, r: nat)
    requires IsOrder(cmp) && Sorted(cmp, s) && r <= |s|
    requires r > 0 ==> Lt(cmp, s[r - 1], d)
    requires r < |s| ==> !Lt(cmp, s[r], d)
    ensures forall i :: 0 <= i < |s| ==> (i < r <==> Lt(cmp, s[i], d))
    ensures CountLess(cmp, s, d) == r
  {
    forall i | 0 <= i < r - 1
      ensures Lt(cmp, s[i], d)
    {
      assert Le(cmp, s[i], s[r - 1]);
    }
    forall i | r < i < |s|
      ensures !Lt(cmp, s[i], d)
    {
      assert Le(cmp, s[r], s[i]);
    }
    CountOfSplit(cmp, s, d, r);
  }

  lemma {:induction false} CountOfSplit<T>(cmp: (T, T) -> Option<Ordering>, s: seq<T>, d: T, r: nat)
    requires r <= |s|
    requires forall i :: 0 <= i < |s| ==> (i < r <==> Lt(cmp, s[i], d))
    ensures CountLess(cmp, s, d) == r
    decreases |s|
  {
    if s != [] {
      if r > 0 {
        CountOfSplit(cmp, s[1..], d, r - 1);
      } else {
        CountOfSplit(cmp, s[1..], d, 0);
      }
    }
  }

  /** `insert`: `d` placed at the partition point. */
  function InsertSorted<T>(cmp: (T, T) -> Option<Ordering>, s: seq<T>, d: T): (r: seq<T>)
    requires Comparable(cmp, s, d)
    ensures |r| == |s| + 1 && multiset(r) == multiset(s) + multiset{d}
    ensures r[PartitionPoint(cmp, s, d)] == d
    ensures forall j :: 0 <= j < PartitionPoint(cmp, s, d) ==> Lt(cmp, r[j], d)
  {
    var i := PartitionPoint(cmp, s, d);
    assert s == s[..i] + s[i..];
    s[..i] + [d] + s[i..]
  }

  /** Inserting into a sorted vector keeps it sorted, with `d` after every
      element below it and before every other one. */
  lemma InsertKeepsSorted<T(!new)>(cmp: (T, T) -> Option<Ordering>, s: seq<T>, d: T)
    requires IsOrder(cmp) && Sorted(cmp, s) && Comparable(cmp, s, d)
    ensures Sorted(cmp, InsertSorted(cmp, s, d))
    ensures forall j :: PartitionPoint(cmp, s, d) < j < |s| + 1 ==> !Lt(cmp, InsertSorted(cmp, s, d)[j], d)
  {
    var i := PartitionPoint(cmp, s, d);
    PartitionPointCountsLess(cmp, s, d);
    forall j | i <= j < |s|
      ensures Le(cmp, d, s[j])
    {
      NotBelowIsAbove(cmp, s[j], d);
    }
    InsertBetween(cmp, s, d, i);
  }

  /** Putting `d` between a sorted prefix at most `d` and a sorted suffix at
      least `d` gives a sorted vector. */
  lemma InsertBetween<T>(cmp: (T, T) -> Option<Ordering>, s: seq<T>, d: T, i: nat)
    requires Sorted(cmp, s) && i <= |s|
    requires forall j :: 0 <= j < i ==> Le(cmp, s[j], d)
    requires forall j :: i <= j < |s| ==> Le(cmp, d, s[j])
    ensures Sorted(cmp, s[..i] + [d] + s[i..])
  {
    var r := s[..i] + [d] + s[i..];
    forall j, k | 0 <= j < k < |r|
      ensures Le(cmp, r[j], r[k])
    {
      if k < i {
        assert r[j] == s[j] && r[k] == s[k];
      } else if k == i {
        assert r[j] == s[j];
      } else if j < i {
        assert r[j] == s[j] && r[k] == s[k - 1];
      } else if j == i {
        assert r[k] == s[k - 1];
      } else {
        assert r[j] == s[j - 1] && r[k] == s[k - 1];
      }
    }
  }

  /** An element comparable with `d` and not below it is at or above it. */
  lemma NotBelowIsAbove<T(!new)>(cmp: (T, T) -> Option<Ordering>, x: T, d: T)
    requires IsOrder(cmp) && cmp(x, d).Some? && !Lt(cmp, x, d)
    ensures Le(cmp, d, x)
  {
    if cmp(x, d) == Some(Equal) {
      assert x == d;
    } else {
      var o := cmp(x, d).value;
      assert cmp(x, d) == Some(o) && o != Less && o != Equal;
    }
  }

  /** `remove(pos)` keeps a sorted vector sorted. */
  lemma DeleteKeepsSorted<T>(cmp: (T, T) -> Option<Ordering>, s: seq<T>, pos: nat)
    requires Sorted(cmp, s) && pos < |s|
    ensures Sorted(cmp, s[..pos] + s[pos + 1..])
  {
    var r := s[..pos] + s[pos + 1..];
    forall j, k | 0 <= j < k < |r|
      ensures Le(cmp, r[j], r[k])
    {
      if k < pos {
        assert r[j] == s[j] && r[k] == s[k];
      } else if j < pos {
        assert r[j] == s[j] && r[k] == s[k + 1];
      } else {
        assert r[j] == s[j + 1] && r[k] == s[k + 1];
      }
    }
  }
}
