/** The subsequence of elements that a predicate keeps: what every filtering loop of the source computes. */
module Selection {

  function Select<T>(s: seq<T>, keep: T -> bool): seq<T> {
    if s == [] then []
    else
      var front := Select(s[..|s| - 1], keep);
      if keep(s[|s| - 1]) then front + [s[|s| - 1]] else front
  }

  /** One more element, as a filtering loop meets it. */
  lemma SelectNext<T>(s: seq<T>, keep: T -> bool, i: nat)
    requires i < |s|
    ensures Select(s[..i + 1], keep) == Select(s[..i], keep) + (if keep(s[i]) then [s[i]] else [])
  {
    assert s[..i + 1][..i] == s[..i];
  }

  lemma {:induction false} SelectConcat<T>(a: seq<T>, b: seq<T>, keep: T -> bool)
    ensures Select(a + b, keep) == Select(a, keep) + Select(b, keep)
  {
    if b == [] {
      assert a + b == a;
    } else {
      var last := |b| - 1;
      SelectConcat(a, b[..last], keep);
      assert (a + b)[..|a + b| - 1] == a + b[..last];
    }
  }

  /** How often x occurs in s. */
  ghost function Count<T>(s: seq<T>, x: T): nat {
    if s == [] then 0 else Count(s[..|s| - 1], x) + (if s[|s| - 1] == x then 1 else 0)
  }

  lemma {:induction false} CountConcat<T>(a: seq<T>, b: seq<T>, x: T)
    ensures Count(a + b, x) == Count(a, x) + Count(b, x)
  {
    if b == [] {
      assert a + b == a;
    } else {
      var last := |b| - 1;
      CountConcat(a, b[..last], x);
      assert (a + b)[..|a + b| - 1] == a + b[..last];
    }
  }

  lemma {:induction false} CountIsMultiplicity<T>(s: seq<T>, x: T)
    ensures Count(s, x) == multiset(s)[x]
    ensures Count(s, x) > 0 <==> x in s
  {
    if s != [] {
      CountIsMultiplicity(s[..|s| - 1], x);
      assert s == s[..|s| - 1] + [s[|s| - 1]];
    }
  }

  /** Selection keeps every copy of a kept element and no copy of any other. */
  lemma {:induction false} SelectCount<T>(s: seq<T>, keep: T -> bool, x: T)
    ensures Count(Select(s, keep), x) == if keep(x) then Count(s, x) else 0
  {
    if s != [] {
      var front, last := s[..|s| - 1], s[|s| - 1];
      SelectCount(front, keep, x);
      if keep(last) {
        CountConcat(Select(front, keep), [last], x);
        assert Count([last], x) == if last == x then 1 else 0;
      }
    }
  }

  lemma SelectSingle<T>(x: T, keep: T -> bool)
    ensures Select([x], keep) == if keep(x) then [x] else []
  {
    assert Select([x][..0], keep) == [];
  }

  /** Two predicates that agree on the elements select the same subsequence. */
  lemma {:induction false} SelectAgree<T>(s: seq<T>, keep: T -> bool, keep': T -> bool)
    requires forall x | x in s :: keep(x) == keep'(x)
    ensures Select(s, keep) == Select(s, keep')
  {
    if s != [] {
      SelectAgree(s[..|s| - 1], keep, keep');
    }
  }

  /** Selecting twice is selecting once by both predicates. */
  lemma {:induction false} SelectTwice<T>(s: seq<T>, first: T -> bool, second: T -> bool, both: T -> bool)
    requires forall x | x in s :: both(x) == (first(x) && second(x))
    ensures Select(Select(s, first), second) == Select(s, both)
  {
    if s != [] {
      var front := s[..|s| - 1];
      SelectTwice(front, first, second, both);
      if first(s[|s| - 1]) {
        SelectConcat(Select(front, first), [s[|s| - 1]], second);
        assert Select([s[|s| - 1]], second) == if second(s[|s| - 1]) then [s[|s| - 1]] else [];
      }
    }
  }
}
