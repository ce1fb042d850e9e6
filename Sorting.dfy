/** In-place sorting by a caller-supplied "less" relation, as Go's sort.Slice and sort.Strings
    do it. Go makes no promise about the order of equivalent elements, so the sort is
    specified only by what every correct sort guarantees: the result is ordered and is a
    permutation of the input. */
module Sorting {

  /** The contract sort.Slice demands of its less function. */
  ghost predicate StrictWeakOrder<T(!new)>(less: (T, T) -> bool) {
    (forall x :: !less(x, x))
    && (forall x, y, z {:trigger less(x, y), less(y, z)} :: less(x, y) && less(y, z) ==> less(x, z))
    && (forall x, y, z {:trigger less(x, y), less(y, z)} :: less(x, z) ==> less(x, y) || less(y, z))
  }

  /** No element is less than one placed before it. */
  ghost predicate SortedBy<T>(s: seq<T>, less: (T, T) -> bool) {
    forall i, j :: 0 <= i < j < |s| ==> !less(s[j], s[i])
  }

  /** a[..i] is ordered; the prefix the outer loop has sorted. */
  ghost predicate SortedPrefix<T>(s: seq<T>, i: int, less: (T, T) -> bool)
    requires 0 <= i <= |s|
  {
    forall p, q :: 0 <= p < q < i ==> !less(s[q], s[p])
  }

  /** The state while s[j] travels left through s[..i + 1]: apart from position j the range is
      ordered, and the travelling element is less than everything it has passed. */
  ghost predicate Inserting<T>(s: seq<T>, j: int, i: int, less: (T, T) -> bool)
    requires 0 <= j <= i < |s|
  {
    (forall p, q :: 0 <= p < q <= i && p != j && q != j ==> !less(s[q], s[p]))
    && (forall q :: j < q <= i ==> less(s[j], s[q]))
  }

  lemma InsertingStart<T>(s: seq<T>, i: int, less: (T, T) -> bool)
    requires 0 <= i < |s| && SortedPrefix(s, i, less)
    ensures Inserting(s, i, i, less)
  {
  }

  /** One swap moves the travelling element one place left and keeps the state. */
  lemma InsertingStep<T>(s: seq<T>, j: int, i: int, less: (T, T) -> bool)
    requires 0 < j <= i < |s| && Inserting(s, j, i, less) && less(s[j], s[j - 1])
    ensures Inserting(s[j - 1 := s[j]][j := s[j - 1]], j - 1, i, less)
  {
    var t := s[j - 1 := s[j]][j := s[j - 1]];
    forall p, q | 0 <= p < q <= i && p != j - 1 && q != j - 1 ensures !less(t[q], t[p]) {
      var p' := if p == j then j - 1 else p;
      var q' := if q == j then j - 1 else q;
      assert t[p] == s[p'] && t[q] == s[q'];
    }
  }

  /** When the element stops, the whole range s[..i + 1] is ordered. */
  lemma InsertingDone<T(!new)>(s: seq<T>, j: int, i: int, less: (T, T) -> bool)
    requires StrictWeakOrder(less)
    requires 0 <= j <= i < |s| && Inserting(s, j, i, less)
    requires j == 0 || !less(s[j], s[j - 1])
    ensures SortedPrefix(s, i + 1, less)
  {
    forall p, q | 0 <= p < q <= i ensures !less(s[q], s[p]) {
      if q == j && p < j - 1 {
        var x, y, z := s[j], s[j - 1], s[p];
        assert !less(y, z);
        assert less(x, z) ==> less(x, y) || less(y, z);
      } else if p == j {
        var x, y := s[j], s[q];
        assert less(x, y);
        assert less(y, x) ==> less(x, x);
      }
    }
  }

  /** One pass of the outer loop: a[i] travels left until the prefix a[..i + 1] is ordered. */
  method Insert<T(!new)>(a: array<T>, i: int, less: (T, T) -> bool)
    requires StrictWeakOrder(less)
    requires 0 <= i < a.Length && SortedPrefix(a[..], i, less)
    modifies a
    ensures SortedPrefix(a[..], i + 1, less)
    ensures multiset(a[..]) == multiset(old(a[..]))
  {
    InsertingStart(a[..], i, less);
    var j := i;
    while j > 0 && less(a[j], a[j - 1])
      invariant 0 <= j <= i
      invariant Inserting(a[..], j, i, less)
      invariant multiset(a[..]) == multiset(old(a[..]))
    {
      InsertingStep(a[..], j, i, less);
      a[j], a[j - 1] := a[j - 1], a[j];
      j := j - 1;
    }
    InsertingDone(a[..], j, i, less);
  }

  /** Insertion sort: each element is moved left past the elements it is less than. */
  method InsertionSort<T(!new)>(a: array<T>, less: (T, T) -> bool)
    requires StrictWeakOrder(less)
    modifies a
    ensures SortedBy(a[..], less)
    ensures multiset(a[..]) == multiset(old(a[..]))
  {
    var i := 0;
    while i < a.Length
      invariant 0 <= i <= a.Length
      invariant SortedPrefix(a[..], i, less)
      invariant multiset(a[..]) == multiset(old(a[..]))
    {
      Insert(a, i, less);
      i := i + 1;
    }
  }

  /** No element occurs twice. */
  ghost predicate Distinct<T>(s: seq<T>) {
    forall i, j :: 0 <= i < j < |s| ==> s[i] != s[j]
  }

  lemma {:induction false} DistinctCount<T>(s: seq<T>, x: T)
    requires Distinct(s)
    ensures multiset(s)[x] <= 1
  {
    if s != [] {
      var init := s[..|s| - 1];
      assert s == init + [s[|s| - 1]];
      assert forall i :: 0 <= i < |init| ==> init[i] == s[i];
      DistinctCount(init, x);
      if x == s[|s| - 1] {
        assert x !in init;
      }
    }
  }

  /** A permutation of a sequence without repetitions has none either. */
  lemma DistinctPermutation<T>(xs: seq<T>, ys: seq<T>)
    requires multiset(xs) == multiset(ys) && Distinct(xs)
    ensures Distinct(ys)
  {
    forall i, j | 0 <= i < j < |ys| ensures ys[i] != ys[j] {
      var x, y := ys[i], ys[j];
      assert ys == ys[..j] + ys[j..];
      assert x in multiset(ys[..j]) && y in multiset(ys[j..]);
      assert x == y ==> multiset(ys)[x] >= 2;
      DistinctCount(xs, x);
    }
  }
}
