/**
 The contract of Go's `sort.Sort` and `sort.Slice`: a permutation in order, with nothing said about
 elements that compare equal. Callers reason from the contract only, so what they prove holds of any
 unstable sort.
 */
module Sorting {
  import opened Selection

  ghost predicate NotLess<T>(less: (T, T) -> bool, a: T, b: T) {
    !less(a, b)
  }

  /** What Go's sort package asks of a less function. */
  ghost predicate StrictWeakOrder<T(!new)>(less: (T, T) -> bool) {
    && (forall a, b :: less(a, b) ==> NotLess(less, b, a))
    && (forall a, b, c :: NotLess(less, b, a) && NotLess(less, c, b) ==> NotLess(less, c, a))
  }

  ghost predicate PairInOrder<T>(s: seq<T>, less: (T, T) -> bool, i: nat, j: nat)
    requires i < j < |s|
  {
    !less(s[j], s[i])
  }

  ghost predicate InOrder<T>(s: seq<T>, less: (T, T) -> bool) {
    forall i, j | 0 <= i < j < |s| :: PairInOrder(s, less, i, j)
  }

  ghost predicate Permutation<T(!new)>(a: seq<T>, b: seq<T>) {
    forall x :: Count(a, x) == Count(b, x)
  }

  ghost predicate SortOf<T(!new)>(sorted: seq<T>, s: seq<T>, less: (T, T) -> bool) {
    Permutation(sorted, s) && InOrder(sorted, less)
  }

  lemma PermutationContains<T(!new)>(a: seq<T>, b: seq<T>, x: T)
    requires Permutation(a, b)
    ensures x in a <==> x in b
  {
    CountIsMultiplicity(a, x);
    CountIsMultiplicity(b, x);
  }

  lemma InsertPermutes<T(!new)>(s: seq<T>, x: T, k: nat)
    requires k <= |s|
    ensures Permutation(s[..k] + [x] + s[k..], s + [x])
  {
    forall y ensures Count(s[..k] + [x] + s[k..], y) == Count(s + [x], y) {
      CountConcat(s[..k] + [x], s[k..], y);
      CountConcat(s[..k], [x], y);
      CountConcat(s[..k], s[k..], y);
      CountConcat(s, [x], y);
      assert s == s[..k] + s[k..];
    }
  }

  lemma InsertInOrder<T(!new)>(s: seq<T>, x: T, k: nat, less: (T, T) -> bool)
    requires StrictWeakOrder(less) && InOrder(s, less) && k <= |s|
    requires k > 0 ==> !less(x, s[k - 1])
    requires forall j | k <= j < |s| :: less(x, s[j])
    ensures InOrder(s[..k] + [x] + s[k..], less)
  {
    var r := s[..k] + [x] + s[k..];
    forall i, j | 0 <= i < j < |r| ensures PairInOrder(r, less, i, j) {
      if j < k {
        assert PairInOrder(s, less, i, j);
      } else if j == k {
        NotBelow(s, x, k, less, i);
      } else if i == k {
        assert NotLess(less, s[j - 1], x);
      } else {
        assert PairInOrder(s, less, if i < k then i else i - 1, j - 1);
      }
    }
  }

  lemma NotBelow<T(!new)>(s: seq<T>, x: T, k: nat, less: (T, T) -> bool, i: nat)
    requires StrictWeakOrder(less) && InOrder(s, less) && i < k <= |s| && !less(x, s[k - 1])
    ensures !less(x, s[i])
  {
    if i < k - 1 {
      assert PairInOrder(s, less, i, k - 1);
      assert NotLess(less, s[k - 1], s[i]) && NotLess(less, x, s[k - 1]);
      assert NotLess(less, x, s[i]);
    }
  }

  /** Inserts x before the first element that x is less than. */
  method Insert<T(!new)>(s: seq<T>, x: T, less: (T, T) -> bool) returns (r: seq<T>)
    requires StrictWeakOrder(less) && InOrder(s, less)
    ensures SortOf(r, s + [x], less)
  {
    var k := |s|;
    while k > 0 && less(x, s[k - 1])
      invariant 0 <= k <= |s|
      invariant forall j | k <= j < |s| :: less(x, s[j])
    {
      k := k - 1;
    }
    InsertInOrder(s, x, k, less);
    InsertPermutes(s, x, k);
    r := s[..k] + [x] + s[k..];
  }

  method Sort<T(!new)>(s: seq<T>, less: (T, T) -> bool) returns (r: seq<T>)
    requires StrictWeakOrder(less)
    ensures SortOf(r, s, less)
  {
    r := [];
    for i := 0 to |s|
      invariant SortOf(r, s[..i], less)
    {
      ghost var sorted := r;
      r := Insert(r, s[i], less);
      forall x ensures Count(r, x) == Count(s[..i + 1], x) {
        assert s[..i + 1][..i] == s[..i];
        assert Count(r, x) == Count(sorted + [s[i]], x);
        CountConcat(sorted, [s[i]], x);
        assert Count([s[i]], x) == if s[i] == x then 1 else 0;
      }
    }
    assert s[..|s|] == s;
  }
}
