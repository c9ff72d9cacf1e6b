/**
 cmd/cloudtrail/cache.go and time.go at ticks finer than a second: where `DiffMultiple` relies on whole seconds.

 A request that ends at the wall clock starts and ends between two seconds. A later request that reaches beyond either end of
 the period it left is answered up to a full second before it and from a full second after it.
 */
module Granularity {
  import opened Wrappers
  import opened Periods
  import opened MissingPeriods
  import opened MergedGaps
  import opened Selection
  import opened Sorting
  import opened EventCache
  import opened WriteEvents

  // ----- The full flag -----

  /**
   Cached period i starts before the request and ends inside it, or right before it, and less than a full second is then
   left to fetch: up to the request's end, or up to the next cached period.
   */
  ghost predicate NearMiss(req: Period, c: seq<Period>, i: nat, second: int)
    requires i < |c|
  {
    && c[i].Overlap(req, second) && c[i].startTime < req.startTime && c[i].endTime < req.endTime
    && (|| req.endTime < c[i].endTime + second
        || (&& i + 1 < |c| && c[i].endTime + second <= c[i + 1].endTime
            && c[i + 1].startTime < c[i].endTime + 2 * second && c[i + 1].startTime <= req.endTime))
  }

  ghost predicate NearMissed(req: Period, c: seq<Period>, second: int) {
    exists i | 0 <= i < |c| :: NearMiss(req, c, i, second)
  }

  ghost predicate FlagsFull(req: Period, c: seq<Period>, i: nat, second: int)
    requires i < |c|
  {
    c[i].Overlap(req, second) && c[i].Diff(req, NextPeriod(c, i), second) == [] && FullGuard(c[i], req)
  }

  lemma FlagsFullIff(req: Period, c: seq<Period>, i: nat, second: int)
    requires Spaced(c, second) && req.Valid() && second >= 1 && i < |c|
    ensures FlagsFull(req, c, i, second) <==> req.Within(c[i]) || NearMiss(req, c, i, second)
  {
  }

  lemma {:induction false} FlagUpTo(req: Period, c: seq<Period>, n: nat, second: int)
    requires n <= |c|
    ensures DiffUpTo(req, c, n, second).fullOverlap <==> exists i | 0 <= i < n :: FlagsFull(req, c, i, second)
  {
    if n > 0 {
      FlagUpTo(req, c, n - 1, second);
      if FlagsFull(req, c, n - 1, second) {
        assert DiffUpTo(req, c, n, second).fullOverlap;
      }
    }
  }

  /**
   At any granularity the full flag is raised for every request that one cached period contains, and otherwise exactly for
   a near miss: the flag is right if and only if the request is contained or nearly missed nowhere.
   */
  lemma FullFlagIff(req: Period, c: seq<Period>, second: int)
    requires Spaced(c, second) && req.Valid() && second >= 1
    ensures FullOverlap(req, c, second) <==> ContainedInOne(req, c) || NearMissed(req, c, second)
    ensures (FullOverlap(req, c, second) <==> ContainedInOne(req, c)) <==>
      ContainedInOne(req, c) || !NearMissed(req, c, second)
  {
    FlagUpTo(req, c, |c|, second);
    forall i | 0 <= i < |c|
      ensures FlagsFull(req, c, i, second) <==> req.Within(c[i]) || NearMiss(req, c, i, second)
    {
      FlagsFullIff(req, c, i, second);
    }
  }

  // ----- A request that touches one cached period -----

  ghost predicate TouchesOnly(req: Period, c: seq<Period>, i: nat, second: int) {
    && Spaced(c, second) && second >= 1 && req.Valid()
    && i < |c| && c[i].Overlap(req, second)
    && (forall j | 0 <= j < |c| && j != i :: !c[j].Overlap(req, second))
  }

  /** The piece asked for before the cached period. It ends before it starts if the request starts less than a second before. */
  function Before(req: Period, p: Period, second: int): seq<Period> {
    if req.startTime < p.startTime && req.startTime != p.startTime - second
    then [Period(req.startTime, p.startTime - second)] else []
  }

  function After(req: Period, p: Period, second: int): seq<Period> {
    if p.endTime + second < req.endTime then [Period(p.endTime + second, req.endTime)] else []
  }

  /** `Diff` finds nothing missing. */
  predicate NothingAround(req: Period, p: Period, second: int) {
    p.startTime <= req.startTime && req.endTime < p.endTime + second
  }

  lemma {:induction false} NotTouchedBefore(req: Period, c: seq<Period>, n: nat, second: int)
    requires n <= |c| && forall i | 0 <= i < n :: !c[i].Overlap(req, second)
    ensures DiffUpTo(req, c, n, second) == DiffState([], false, false)
  {
    if n > 0 {
      NotTouchedBefore(req, c, n - 1, second);
    }
  }

  lemma {:induction false} NotTouchedAfter(req: Period, c: seq<Period>, i: nat, n: nat, second: int)
    requires i <= n <= |c| && forall j | i <= j < n :: !c[j].Overlap(req, second)
    ensures DiffUpTo(req, c, n, second) == DiffUpTo(req, c, i, second)
    decreases n
  {
    if n > i {
      NotTouchedAfter(req, c, i, n - 1, second);
    }
  }

  lemma OnlyDiff(req: Period, c: seq<Period>, i: nat, second: int)
    requires TouchesOnly(req, c, i, second)
    ensures var p := c[i];
      p.Diff(req, NextPeriod(c, i), second) ==
        (if req.startTime < p.startTime then [Period(req.startTime, p.startTime - second)] else [])
        + (if p.endTime + second <= req.endTime then [Period(p.endTime + second, req.endTime)] else [])
  {
    if i + 1 < |c| {
      assert !c[i + 1].Overlap(req, second);
    }
  }

  lemma {:induction false} AddTwo(a: Period, b: Period, second: int)
    ensures AddPieces([], [a], second) == AddPiece([], a, second)
    ensures AddPieces([], [a, b], second) == AddPiece(AddPiece([], a, second), b, second)
  {
    assert [a][..0] == [] && [a, b][..1] == [a];
  }

  /** The pieces are kept unless they are a single instant. */
  lemma {:induction false} PiecesAdded(req: Period, p: Period, second: int)
    requires p.Valid() && req.Valid() && second >= 1
    ensures AddPieces([], (if req.startTime < p.startTime then [Period(req.startTime, p.startTime - second)] else [])
                          + (if p.endTime + second <= req.endTime then [Period(p.endTime + second, req.endTime)] else []), second)
      == Before(req, p, second) + After(req, p, second)
  {
    var a, b := Period(req.startTime, p.startTime - second), Period(p.endTime + second, req.endTime);
    var left: seq<Period> := if req.startTime < p.startTime then [a] else [];
    var right: seq<Period> := if p.endTime + second <= req.endTime then [b] else [];
    PieceKept(a, [], second);
    PieceKept(b, [], second);
    if left == [] || right == [] {
      assert left + right == (if left == [] then right else left);
      AddTwo(if left == [] then b else a, b, second);
    } else {
      assert left + right == [a, b];
      AddTwo(a, b, second);
      PieceKept(b, [a], second);
      assert [a] + [b] == [a, b];
    }
  }

  lemma PieceKept(p: Period, missing: seq<Period>, second: int)
    requires |missing| <= 1 && (missing != [] ==> !p.Overlap(missing[0], second))
    ensures AddPiece(missing, p, second) == if p.startTime == p.endTime then missing else missing + [p]
  {
  }

  lemma {:induction false} OnlyState(req: Period, c: seq<Period>, i: nat, second: int)
    requires TouchesOnly(req, c, i, second)
    ensures DiffUpTo(req, c, |c|, second) == DiffStep(req, c, i, DiffState([], false, false), second)
  {
    NotTouchedBefore(req, c, i, second);
    NotTouchedAfter(req, c, i + 1, |c|, second);
  }

  lemma OnlyStep(req: Period, c: seq<Period>, i: nat, second: int)
    requires TouchesOnly(req, c, i, second)
    ensures DiffStep(req, c, i, DiffState([], false, false), second) ==
      if NothingAround(req, c[i], second) then DiffState([], false, FullGuard(c[i], req))
      else DiffState(Before(req, c[i], second) + After(req, c[i], second), true, false)
  {
    assert c[i].Valid();
    OnlyDiff(req, c, i, second);
    PiecesAdded(req, c[i], second);
  }

  /** What `DiffMultiple` answers for a request that touches one cached period, and when it flags a full hit. */
  lemma OnlyAnswer(req: Period, c: seq<Period>, i: nat, second: int)
    requires TouchesOnly(req, c, i, second)
    ensures Missing(req, c, second) ==
      if NothingAround(req, c[i], second) then [req] else Before(req, c[i], second) + After(req, c[i], second)
    ensures FullOverlap(req, c, second) <==> NothingAround(req, c[i], second) && FullGuard(c[i], req)
  {
    OnlyState(req, c, i, second);
    OnlyStep(req, c, i, second);
  }

  /** The request asks for t, but the cache does not hold it and the API is not asked for it. */
  ghost predicate Unserved(req: Period, c: seq<Period>, second: int, t: int) {
    req.Contains(t) && !Covered(c, t) && (FullOverlap(req, c, second) || !Covered(Missing(req, c, second), t))
  }

  lemma CoveredByOne(req: Period, c: seq<Period>, i: nat, second: int, t: int)
    requires TouchesOnly(req, c, i, second) && req.Contains(t)
    ensures Covered(c, t) <==> c[i].Contains(t)
  {
    if Covered(c, t) {
      var j :| 0 <= j < |c| && c[j].Contains(t);
      assert c[j].Overlap(req, second);
    }
  }

  lemma CoveredTwo(a: seq<Period>, b: seq<Period>, t: int)
    requires |a| <= 1 && |b| <= 1
    ensures Covered(a + b, t) <==> (a != [] && a[0].Contains(t)) || (b != [] && b[0].Contains(t))
  {
    if a != [] {
      assert (a + b)[0] == a[0];
    }
    if b != [] {
      assert (a + b)[|a|] == b[0];
    }
  }

  /** Which instants are left unserved: those of the open second on either side, and single instants that are dropped. */
  lemma UnservedInstants(req: Period, c: seq<Period>, i: nat, second: int, t: int)
    requires TouchesOnly(req, c, i, second)
    ensures var p := c[i];
      Unserved(req, c, second, t) <==>
        && req.Contains(t) && !p.Contains(t)
        && (if NothingAround(req, p, second) then FullGuard(p, req)
            else if t < p.startTime then p.startTime - second < t || p.startTime - second == req.startTime
            else t < p.endTime + second || p.endTime + second == req.endTime)
  {
    var p := c[i];
    OnlyAnswer(req, c, i, second);
    SinglePiece(req, t);
    CoveredTwo(Before(req, p, second), After(req, p, second), t);
    if req.Contains(t) {
      CoveredByOne(req, c, i, second, t);
    }
  }

  // ----- What is saved -----

  /** The missing periods latest first, and the list that is merged when the call ends. */
  ghost predicate SavedBy(req: Period, c: seq<Period>, second: int, md: seq<Period>, ps: seq<Period>) {
    && SortOf(md, Missing(req, c, second), StartsAfter)
    && SortOf(ps, c + (if FullOverlap(req, c, second) then [] else RecordedUpTo(md, |md|, second)), StartsBefore)
  }

  /** The periods that a completed call saves. */
  ghost predicate SavedAs(req: Period, c: seq<Period>, second: int, after: seq<Period>) {
    exists md, ps :: SavedBy(req, c, second, md, ps) && after == Merged(ps, second)
  }

  /** The saved cache claims an instant that the call left unserved. */
  ghost predicate Skipped(req: Period, c: seq<Period>, second: int, after: seq<Period>, t: int) {
    Unserved(req, c, second, t) && Covered(after, t)
  }

  ghost predicate StrictlyAscending(ps: seq<Period>) {
    forall i, j | 0 <= i < j < |ps| :: ps[i].startTime < ps[j].startTime
  }

  ghost predicate AllBefore(a: seq<Period>, b: seq<Period>) {
    forall i, j | 0 <= i < |a| && 0 <= j < |b| :: a[i].startTime < b[j].startTime
  }

  lemma SameHead(p: Period, u: seq<Period>, v: seq<Period>)
    requires Permutation([p] + u, [p] + v)
    ensures Permutation(u, v)
  {
    forall x ensures Count(u, x) == Count(v, x) {
      CountConcat([p], u, x);
      CountConcat([p], v, x);
    }
  }

  lemma SameTail(u: seq<Period>, v: seq<Period>, p: Period)
    requires Permutation(u + [p], v + [p])
    ensures Permutation(u, v)
  {
    forall x ensures Count(u, x) == Count(v, x) {
      CountConcat(u, [p], x);
      CountConcat(v, [p], x);
    }
  }

  lemma LeastFirst(a: seq<Period>, x: seq<Period>, ps: seq<Period>)
    requires a != [] && StrictlyAscending(a) && AllBefore(a, x) && SortOf(ps, a + x, StartsBefore)
    ensures ps != [] && ps[0] == a[0] && SortOf(ps[1..], a[1..] + x, StartsBefore)
  {
    var all := a + x;
    assert all[0] == a[0];
    PermutationContains(ps, all, a[0]);
    var i :| 0 <= i < |ps| && ps[i] == a[0];
    PermutationContains(ps, all, ps[0]);
    var k :| 0 <= k < |all| && all[k] == ps[0];
    assert i > 0 ==> PairInOrder(ps, StartsBefore, 0, i);
    assert ps == [a[0]] + ps[1..] && all == [a[0]] + (a[1..] + x);
    SameHead(a[0], ps[1..], a[1..] + x);
    forall u, v | 0 <= u < v < |ps[1..]| ensures PairInOrder(ps[1..], StartsBefore, u, v) {
      assert PairInOrder(ps, StartsBefore, u + 1, v + 1);
    }
  }

  /** Sorting leaves strictly ascending periods that start before all others in front, as they are. */
  lemma {:induction false} SortedFront(a: seq<Period>, x: seq<Period>, ps: seq<Period>)
    requires StrictlyAscending(a) && AllBefore(a, x) && SortOf(ps, a + x, StartsBefore)
    ensures |a| <= |ps| && ps[..|a|] == a && SortOf(ps[|a|..], x, StartsBefore)
  {
    if a == [] {
      assert a + x == x && ps[0..] == ps;
    } else {
      LeastFirst(a, x, ps);
      SortedFront(a[1..], x, ps[1..]);
      assert a == [a[0]] + a[1..] && ps[|a|..] == ps[1..][|a[1..]|..];
      assert ps[..|a|] == [ps[0]] + ps[1..][..|a[1..]|];
    }
  }

  lemma GreatestLast(x: seq<Period>, b: seq<Period>, ps: seq<Period>)
    requires b != [] && StrictlyAscending(b) && AllBefore(x, b) && SortOf(ps, x + b, StartsBefore)
    ensures ps != [] && ps[|ps| - 1] == b[|b| - 1] && SortOf(ps[..|ps| - 1], x + b[..|b| - 1], StartsBefore)
  {
    var all, last := x + b, b[|b| - 1];
    assert all[|all| - 1] == last;
    PermutationContains(ps, all, last);
    var i :| 0 <= i < |ps| && ps[i] == last;
    var n := |ps| - 1;
    PermutationContains(ps, all, ps[n]);
    var k :| 0 <= k < |all| && all[k] == ps[n];
    assert i < n ==> PairInOrder(ps, StartsBefore, i, n);
    assert ps == ps[..n] + [last] && all == (x + b[..|b| - 1]) + [last];
    SameTail(ps[..n], x + b[..|b| - 1], last);
    forall u, v | 0 <= u < v < |ps[..n]| ensures PairInOrder(ps[..n], StartsBefore, u, v) {
      assert PairInOrder(ps, StartsBefore, u, v);
    }
  }

  /** The same at the back. */
  lemma {:induction false} SortedBack(x: seq<Period>, b: seq<Period>, ps: seq<Period>)
    requires StrictlyAscending(b) && AllBefore(x, b) && SortOf(ps, x + b, StartsBefore)
    ensures exists v :: ps == v + b && SortOf(v, x, StartsBefore)
  {
    if b == [] {
      assert x + b == x && ps == ps + b;
      assert SortOf(ps, x, StartsBefore);
    } else {
      var front, last := b[..|b| - 1], b[|b| - 1];
      GreatestLast(x, b, ps);
      SortedBack(x, front, ps[..|ps| - 1]);
      var v :| ps[..|ps| - 1] == v + front && SortOf(v, x, StartsBefore);
      assert b == front + [last];
      assert ps == ps[..|ps| - 1] + [last];
      assert ps == v + b;
    }
  }

  /** Two lists that merge alike still do when the same periods follow. */
  lemma {:induction false} MergedAlike(a: seq<Period>, b: seq<Period>, w: seq<Period>, second: int)
    requires Merged(a, second) == Merged(b, second)
    ensures Merged(a + w, second) == Merged(b + w, second)
  {
    if w == [] {
      assert a + w == a && b + w == b;
    } else {
      var n := |w| - 1;
      MergedAlike(a, b, w[..n], second);
      assert (a + w)[..|a + w| - 1] == a + w[..n] && (b + w)[..|b + w| - 1] == b + w[..n];
    }
  }

  lemma {:induction false} MergedOne(p: Period, second: int)
    ensures Merged([p], second) == [p]
  {
    assert [p][..0] == [];
  }

  lemma {:induction false} MergedTwo(p: Period, q: Period, second: int)
    requires p.Overlap(q, second)
    ensures Merged([p, q], second) == [Period(Min(p.startTime, q.startTime), Max(p.endTime, q.endTime))]
  {
    MergedOne(p, second);
    assert [p, q][..1] == [p];
  }

  // ----- How the saved list comes out -----

  /** The request shares an instant with the period. */
  predicate Meets(p: Period, req: Period) {
    req.startTime <= p.endTime && p.startTime <= req.endTime
  }

  /** The cached period, and what is recorded after it. */
  function Later(req: Period, p: Period, second: int): seq<Period> {
    [p] + (if After(req, p, second) == [] then []
           else if Before(req, p, second) == [] then After(req, p, second)
           else [Period(p.endTime, req.endTime)])
  }

  /** What it merges to. */
  function Joined(req: Period, p: Period, second: int): Period {
    Period(p.startTime, if After(req, p, second) == [] then p.endTime else req.endTime)
  }

  lemma {:induction false} PairSorted(v: seq<Period>, p: Period, q: Period)
    requires Permutation(v, [p, q])
    ensures v == [p, q] || v == [q, p]
  {
    assert [p, q] == [p] + [q];
    forall x ensures Count([p, q], x) == (if p == x then 1 else 0) + (if q == x then 1 else 0) {
      CountConcat([p], [q], x);
      SingleCount(p, x);
      SingleCount(q, x);
    }
    PermutationContains(v, [p, q], p);
    var i :| 0 <= i < |v| && v[i] == p;
    var rest := v[..i] + v[i + 1..];
    forall x ensures Count(rest, x) == if x == q then 1 else 0 {
      Without(v, i, x);
    }
    OnlyElement(rest, q);
    assert |v| == 2;
  }

  lemma {:induction false} SingleCount(p: Period, x: Period)
    ensures Count([p], x) == if p == x then 1 else 0
  {
    assert [p][..0] == [];
  }

  lemma {:induction false} Without(v: seq<Period>, i: nat, x: Period)
    requires i < |v|
    ensures Count(v, x) == Count(v[..i] + v[i + 1..], x) + (if v[i] == x then 1 else 0)
  {
    assert v == v[..i] + [v[i]] + v[i + 1..];
    CountConcat(v[..i] + [v[i]], v[i + 1..], x);
    CountConcat(v[..i], [v[i]], x);
    CountConcat(v[..i], v[i + 1..], x);
    SingleCount(v[i], x);
  }

  lemma {:induction false} AllEqualCount(v: seq<Period>, q: Period)
    requires forall k | 0 <= k < |v| :: v[k] == q
    ensures Count(v, q) == |v|
  {
    if v != [] {
      AllEqualCount(v[..|v| - 1], q);
    }
  }

  lemma OnlyElement(v: seq<Period>, q: Period)
    requires forall x :: Count(v, x) == if x == q then 1 else 0
    ensures v == [q]
  {
    forall k | 0 <= k < |v| ensures v[k] == q {
      CountIsMultiplicity(v, v[k]);
    }
    AllEqualCount(v, q);
  }

  lemma {:induction false} LaterMerged(req: Period, p: Period, second: int, v: seq<Period>)
    requires p.Valid() && second >= 1 && SortOf(v, Later(req, p, second), StartsBefore)
    ensures Merged(v, second) == [Joined(req, p, second)]
    ensures v != [] && v[0].startTime == p.startTime
    ensures forall k | 0 <= k < |v| :: p.startTime <= v[k].startTime && v[k].Valid()
  {
    if After(req, p, second) == [] {
      assert Later(req, p, second) == [p];
      forall x ensures Count(v, x) == if x == p then 1 else 0 {
        SingleCount(p, x);
      }
      OnlyElement(v, p);
      MergedOne(p, second);
    } else {
      var q := Later(req, p, second)[1];
      assert Later(req, p, second) == [p, q];
      PairSorted(v, p, q);
      if v == [q, p] {
        assert PairInOrder(v, StartsBefore, 0, 1);
        MergedTwo(q, p, second);
      } else {
        MergedTwo(p, q, second);
      }
    }
  }

  /** The piece before the cached period disappears into an earlier cached period that starts exactly where the piece ends. */
  predicate Swallowed(req: Period, c: seq<Period>, i: nat, second: int)
    requires i < |c|
  {
    c[i].startTime - second < req.startTime && i > 0 && c[i - 1].startTime == c[i].startTime - second
  }

  /** What the request leaves in place of cached period i. */
  function Grown(req: Period, c: seq<Period>, i: nat, second: int): Period
    requires i < |c|
  {
    var joined := Joined(req, c[i], second);
    if Before(req, c[i], second) != [] && !Swallowed(req, c, i, second) then joined.(startTime := req.startTime) else joined
  }

  lemma {:induction false} BeforeMerged(req: Period, p: Period, second: int, v: seq<Period>)
    requires p.Valid() && second >= 1 && Before(req, p, second) != [] && v != []
    requires SortOf(v, Later(req, p, second), StartsBefore)
    ensures var joined := Joined(req, p, second);
      Merged(Before(req, p, second) + v, second) == [joined.(startTime := req.startTime)]
  {
    var b := Before(req, p, second)[0];
    LaterMerged(req, p, second, v);
    var w := v[1..];
    assert v == [v[0]] + w && [b] + v == [b, v[0]] + w;
    assert v[0].Valid() && b.endTime + second == v[0].startTime;
    MergedTwo(b, v[0], second);
    var grown := Period(req.startTime, v[0].endTime);
    MergedOne(grown, second);
    MergedAlike([b, v[0]], [grown], w, second);
    if w == [] {
      assert [grown] + w == [grown];
      MergedOne(v[0], second);
    } else {
      TailOfTwo(req, p, second, v);
      assert [grown] + w == [grown, v[1]];
      MergedTwo(grown, v[1], second);
      MergedTwo(v[0], v[1], second);
      assert v == [v[0], v[1]];
    }
  }

  lemma TailOfTwo(req: Period, p: Period, second: int, v: seq<Period>)
    requires p.Valid() && second >= 1 && |v| > 1 && Before(req, p, second) != []
    requires SortOf(v, Later(req, p, second), StartsBefore)
    ensures |v| == 2 && v[0].Overlap(v[1], second)
    ensures Period(req.startTime, v[0].endTime).Overlap(v[1], second)
  {
    if After(req, p, second) == [] {
      assert Later(req, p, second) == [p];
      forall x ensures Count(v, x) == if x == p then 1 else 0 {
        SingleCount(p, x);
      }
      OnlyElement(v, p);
    } else {
      var q := Later(req, p, second)[1];
      assert Later(req, p, second) == [p, q];
      PairSorted(v, p, q);
      if v == [q, p] {
        assert PairInOrder(v, StartsBefore, 0, 1);
      }
    }
  }

  /** The other cached periods end before the request or start after it. */
  lemma OthersAway(req: Period, c: seq<Period>, i: nat, second: int, j: nat)
    requires TouchesOnly(req, c, i, second) && Meets(c[i], req) && j < |c|
    ensures j < i ==> c[j].endTime < req.startTime && c[j].endTime + second != req.startTime
    ensures i < j ==> req.endTime < c[j].startTime && req.endTime + second != c[j].startTime
  {
    if j != i {
      assert !c[j].Overlap(req, second) && c[j].Valid() && c[i].Valid();
    }
  }

  /** The missing periods as recorded: the one before the cached period as it is, the one after it backdated if there are two. */
  lemma {:induction false} RecordedOnly(req: Period, p: Period, second: int, md: seq<Period>, x: Period)
    requires p.Valid() && second >= 1 && SortOf(md, Before(req, p, second) + After(req, p, second), StartsAfter)
    ensures Count([p], x) + Count(RecordedUpTo(md, |md|, second), x) ==
      Count(Before(req, p, second), x) + Count(Later(req, p, second), x)
  {
    var b, a := Before(req, p, second), After(req, p, second);
    assert b + [] == b && [] + a == a;
    if b == [] && a == [] {
      assert Later(req, p, second) == [p];
      assert md == [] by {
        if md != [] {
          PermutationContains(md, [], md[0]);
        }
      }
    } else if b == [] || a == [] {
      var q := if b == [] then a[0] else b[0];
      forall y ensures Count(md, y) == if y == q then 1 else 0 {
        SingleCount(q, y);
      }
      OnlyElement(md, q);
      assert RecordedUpTo(md, 0, second) == [] && RecordedUpTo(md, 1, second) == [q];
      LaterCount(req, p, second, x);
    } else {
      assert b + a == [b[0], a[0]];
      PairSorted(md, b[0], a[0]);
      assert md == [a[0], b[0]] by {
        assert PairInOrder(md, StartsAfter, 0, 1);
      }
      var back := Period(p.endTime, req.endTime);
      assert RecordedUpTo(md, 0, second) == [] && RecordedUpTo(md, 1, second) == [back];
      assert RecordedUpTo(md, 2, second) == [back] + b;
      CountConcat([back], b, x);
      LaterCount(req, p, second, x);
    }
  }

  lemma {:induction false} LaterCount(req: Period, p: Period, second: int, x: Period)
    ensures var tail := Later(req, p, second)[1..]; Count(Later(req, p, second), x) == Count([p], x) + Count(tail, x)
  {
    var tail := Later(req, p, second)[1..];
    assert Later(req, p, second) == [p] + tail;
    CountConcat([p], tail, x);
  }

  lemma {:induction false} SameList(req: Period, c: seq<Period>, i: nat, second: int, md: seq<Period>)
    requires TouchesOnly(req, c, i, second)
    requires SortOf(md, Before(req, c[i], second) + After(req, c[i], second), StartsAfter)
    ensures Permutation(c + RecordedUpTo(md, |md|, second),
                        (c[..i] + Before(req, c[i], second)) + (Later(req, c[i], second) + c[i + 1..]))
  {
    var u, b, w, rec := c[..i], Before(req, c[i], second), c[i + 1..], RecordedUpTo(md, |md|, second);
    var later := Later(req, c[i], second);
    assert c == (u + [c[i]]) + w;
    forall x ensures Count(c + rec, x) == Count((u + b) + (later + w), x) {
      CountConcat(c, rec, x);
      CountConcat(u + [c[i]], w, x);
      CountConcat(u, [c[i]], x);
      CountConcat(u + b, later + w, x);
      CountConcat(u, b, x);
      CountConcat(later, w, x);
      RecordedOnly(req, c[i], second, md, x);
    }
  }

  /** How the sort arranges what a call saves around cached period i. */
  ghost predicate Arranged(req: Period, c: seq<Period>, i: nat, second: int, ps: seq<Period>, v: seq<Period>)
    requires i < |c|
  {
    ps == (c[..i] + Before(req, c[i], second)) + (v + c[i + 1..]) && SortOf(v, Later(req, c[i], second), StartsBefore)
  }

  lemma FrontAscending(req: Period, c: seq<Period>, i: nat, second: int)
    requires TouchesOnly(req, c, i, second) && Meets(c[i], req)
    ensures StrictlyAscending(c[..i] + Before(req, c[i], second)) && StrictlyAscending(c[i + 1..])
  {
    forall j | 0 <= j < |c| ensures c[j].Valid() && (j < i ==> c[j].endTime < req.startTime) {
      OthersAway(req, c, i, second, j);
    }
  }

  lemma PartsInOrder(req: Period, c: seq<Period>, i: nat, second: int)
    requires TouchesOnly(req, c, i, second) && Meets(c[i], req)
    ensures AllBefore(c[..i] + Before(req, c[i], second), Later(req, c[i], second) + c[i + 1..])
    ensures AllBefore(Later(req, c[i], second), c[i + 1..])
  {
    forall j | 0 <= j < |c|
      ensures c[j].Valid()
      ensures j < i ==> c[j].endTime < req.startTime
      ensures i < j ==> req.endTime < c[j].startTime
    {
      OthersAway(req, c, i, second, j);
    }
  }

  lemma {:induction false} Arrange(req: Period, c: seq<Period>, i: nat, second: int, md: seq<Period>, ps: seq<Period>)
    requires TouchesOnly(req, c, i, second) && Meets(c[i], req)
    requires SortOf(md, Before(req, c[i], second) + After(req, c[i], second), StartsAfter)
    requires SortOf(ps, c + RecordedUpTo(md, |md|, second), StartsBefore)
    ensures exists v :: Arranged(req, c, i, second, ps, v)
  {
    forall x ensures Count(ps, x) ==
      Count((c[..i] + Before(req, c[i], second)) + (Later(req, c[i], second) + c[i + 1..]), x)
    {
      assert Count(ps, x) == Count(c + RecordedUpTo(md, |md|, second), x);
      SameList(req, c, i, second, md);
    }
    SameList(req, c, i, second, md);
    FrontAscending(req, c, i, second);
    PartsInOrder(req, c, i, second);
    Rearrange(req, c, i, second, ps);
  }

  lemma Rearrange(req: Period, c: seq<Period>, i: nat, second: int, ps: seq<Period>)
    requires i < |c|
    requires var u, later, w := c[..i] + Before(req, c[i], second), Later(req, c[i], second), c[i + 1..];
      && StrictlyAscending(u) && StrictlyAscending(w) && AllBefore(u, later + w) && AllBefore(later, w)
      && SortOf(ps, u + (later + w), StartsBefore)
    ensures exists v :: Arranged(req, c, i, second, ps, v)
  {
    var u, later, w := c[..i] + Before(req, c[i], second), Later(req, c[i], second), c[i + 1..];
    SortedFront(u, later + w, ps);
    SortedBack(later, w, ps[|u|..]);
    var v :| ps[|u|..] == v + w && SortOf(v, later, StartsBefore);
    assert ps == ps[..|u|] + ps[|u|..];
    assert Arranged(req, c, i, second, ps, v);
  }

  lemma {:induction false} SpacedUnchanged(c: seq<Period>, lo: nat, hi: nat, second: int)
    requires Spaced(c, second) && second >= 1 && lo <= hi <= |c|
    ensures Merged(c[lo..hi], second) == c[lo..hi]
  {
    forall j | 0 <= j < |c[lo..hi]| - 1 ensures !c[lo..hi][j].Overlap(c[lo..hi][j + 1], second) {
      assert c[lo + j].Valid() && c[lo + j + 1].Valid();
    }
    MergedUnchanged(c[lo..hi], second);
  }

  /** A run that merges to one period, out of reach of its neighbours on both sides. */
  lemma {:induction false} Sandwich(a: seq<Period>, v: seq<Period>, b: seq<Period>, m: Period, second: int)
    requires Merged(a, second) == a && Merged(b, second) == b && Merged(v, second) == [m] && v != []
    requires a != [] ==> !a[|a| - 1].Overlap(v[0], second)
    requires b != [] ==> !m.Overlap(b[0], second)
    ensures Merged(a + (v + b), second) == a + ([m] + b)
  {
    if b == [] {
      assert v + b == v && [m] + b == [m];
    } else {
      MergedSplit(v, b, second);
    }
    if a == [] {
      assert a + (v + b) == v + b && a + ([m] + b) == [m] + b;
    } else {
      assert (v + b)[0] == v[0];
      MergedSplit(a, v + b, second);
    }
  }

  lemma GrownFits(req: Period, c: seq<Period>, i: nat, second: int, start: int)
    requires TouchesOnly(req, c, i, second) && Meets(c[i], req) && i + 1 < |c|
    requires start <= c[i].startTime
    ensures !Joined(req, c[i], second).(startTime := start).Overlap(c[i + 1], second)
  {
    OthersAway(req, c, i, second, i + 1);
    assert c[i + 1].Valid();
  }

  lemma {:induction false} SwallowedMerges(req: Period, c: seq<Period>, i: nat, second: int)
    requires TouchesOnly(req, c, i, second) && Meets(c[i], req)
    requires Before(req, c[i], second) != [] && Swallowed(req, c, i, second)
    ensures Merged(c[..i] + Before(req, c[i], second), second) == c[..i]
  {
    var u, b := c[..i], Before(req, c[i], second);
    SpacedUnchanged(c, 0, i, second);
    OthersAway(req, c, i, second, i - 1);
    assert c[i - 1].Valid();
    assert (u + b)[..|u + b| - 1] == u && (u + b)[|u + b| - 1] == b[0];
    assert MergeStep(u, b[0], second) == u;
  }

  /** The cached period before i is out of reach of whatever starts where period i starts. */
  lemma EarlierFits(req: Period, c: seq<Period>, i: nat, second: int, q: Period)
    requires TouchesOnly(req, c, i, second) && 0 < i && q.Valid() && q.startTime == c[i].startTime
    ensures !c[i - 1].Overlap(q, second)
  {
    assert c[i - 1].Valid() && c[i - 1].endTime < c[i].startTime && c[i - 1].endTime + second != c[i].startTime;
  }

  lemma PieceFits(req: Period, c: seq<Period>, i: nat, second: int)
    requires TouchesOnly(req, c, i, second) && Meets(c[i], req) && 0 < i
    requires Before(req, c[i], second) != [] && !Swallowed(req, c, i, second)
    ensures !c[i - 1].Overlap(Before(req, c[i], second)[0], second)
  {
    OthersAway(req, c, i, second, i - 1);
    assert c[i - 1].Valid() && c[i - 1].endTime < c[i].startTime;
  }

  lemma {:induction false} SpacedAround(c: seq<Period>, i: nat, second: int)
    requires Spaced(c, second) && second >= 1 && i < |c|
    ensures Merged(c[..i], second) == c[..i] && Merged(c[i + 1..], second) == c[i + 1..]
  {
    assert c[..i] == c[0..i] && c[i + 1..] == c[i + 1..|c|];
    SpacedUnchanged(c, 0, i, second);
    SpacedUnchanged(c, i + 1, |c|, second);
  }

  /** The saved list is the cached one with period i grown. */
  lemma {:induction false} SavedMerged(req: Period, c: seq<Period>, i: nat, second: int, ps: seq<Period>,
                                       v: seq<Period>)
    requires TouchesOnly(req, c, i, second) && Meets(c[i], req) && Arranged(req, c, i, second, ps, v)
    ensures Merged(ps, second) == c[..i] + ([Grown(req, c, i, second)] + c[i + 1..])
  {
    if Before(req, c[i], second) != [] && !Swallowed(req, c, i, second) {
      SavedWithPiece(req, c, i, second, v);
      assert (c[..i] + Before(req, c[i], second)) + (v + c[i + 1..]) ==
        c[..i] + ((Before(req, c[i], second) + v) + c[i + 1..]);
    } else {
      SavedWithoutPiece(req, c, i, second, v);
      if Before(req, c[i], second) == [] {
        assert c[..i] + Before(req, c[i], second) == c[..i];
      } else {
        SwallowedMerges(req, c, i, second);
        SpacedAround(c, i, second);
        MergedAlike(c[..i] + Before(req, c[i], second), c[..i], v + c[i + 1..], second);
      }
    }
  }

  lemma {:induction false} SavedWithoutPiece(req: Period, c: seq<Period>, i: nat, second: int, v: seq<Period>)
    requires TouchesOnly(req, c, i, second) && Meets(c[i], req) && SortOf(v, Later(req, c[i], second), StartsBefore)
    ensures Merged(c[..i] + (v + c[i + 1..]), second) == c[..i] + ([Joined(req, c[i], second)] + c[i + 1..])
  {
    var p, m := c[i], Joined(req, c[i], second);
    assert p.Valid();
    LaterMerged(req, p, second, v);
    SpacedAround(c, i, second);
    if i + 1 < |c| {
      GrownFits(req, c, i, second, p.startTime);
    }
    if i > 0 {
      EarlierFits(req, c, i, second, v[0]);
    }
    Sandwich(c[..i], v, c[i + 1..], m, second);
  }

  lemma {:induction false} SavedWithPiece(req: Period, c: seq<Period>, i: nat, second: int, v: seq<Period>)
    requires TouchesOnly(req, c, i, second) && Meets(c[i], req) && SortOf(v, Later(req, c[i], second), StartsBefore)
    requires Before(req, c[i], second) != [] && !Swallowed(req, c, i, second)
    ensures Merged(c[..i] + ((Before(req, c[i], second) + v) + c[i + 1..]), second) ==
      c[..i] + ([Joined(req, c[i], second).(startTime := req.startTime)] + c[i + 1..])
  {
    var b, m := Before(req, c[i], second), Joined(req, c[i], second).(startTime := req.startTime);
    assert c[i].Valid();
    LaterMerged(req, c[i], second, v);
    BeforeMerged(req, c[i], second, v);
    SpacedAround(c, i, second);
    if i + 1 < |c| {
      GrownFits(req, c, i, second, req.startTime);
    }
    if i > 0 {
      PieceFits(req, c, i, second);
    }
    assert (b + v)[0] == b[0];
    Sandwich(c[..i], b + v, c[i + 1..], m, second);
  }

  lemma GrownCovers(req: Period, c: seq<Period>, i: nat, second: int, m: Period, t: int)
    requires TouchesOnly(req, c, i, second) && Meets(c[i], req) && req.Contains(t)
    ensures Covered(c[..i] + ([m] + c[i + 1..]), t) <==> m.Contains(t)
  {
    var s := c[..i] + ([m] + c[i + 1..]);
    assert s[i] == m;
    forall j | 0 <= j < |s| && j != i ensures !s[j].Contains(t) {
      OthersAway(req, c, i, second, j);
    }
  }

  /** With nothing recorded the saved periods are the cached ones. */
  lemma {:induction false} NothingRecorded(c: seq<Period>, second: int, ps: seq<Period>)
    requires Spaced(c, second) && second >= 1 && SortOf(ps, c + [], StartsBefore)
    ensures Merged(ps, second) == c
  {
    assert StrictlyAscending(c) by {
      forall a, b | 0 <= a < b < |c| ensures c[a].startTime < c[b].startTime {
        assert c[a].Valid();
      }
    }
    SortedFront(c, [], ps);
    var rest := ps[|c|..];
    if rest != [] {
      PermutationContains(rest, [], rest[0]);
      assert false;
    }
    assert rest == [] && ps == ps[..|c|] + rest;
    assert ps == c;
    SpacedUnchanged(c, 0, |c|, second);
    assert c[0..|c|] == c;
  }

  // ----- What is claimed without having been served -----

  /** The recorded piece before the cached period closes the gap between them. */
  predicate ClaimsBefore(req: Period, c: seq<Period>, i: nat, second: int)
    requires i < |c|
  {
    req.startTime != c[i].startTime - second && !Swallowed(req, c, i, second)
  }

  /**
   For every request that touches one cached period: the saved cache claims unserved instants in the open second before that
   period, unless the request starts exactly a second before it or an earlier period swallows the piece, and in the open
   second after it, if the request reaches further; and nowhere else.
   */
  lemma SkippedInstants(req: Period, c: seq<Period>, i: nat, second: int, after: seq<Period>, t: int)
    requires TouchesOnly(req, c, i, second) && SavedAs(req, c, second, after)
    ensures var p := c[i];
      Skipped(req, c, second, after, t) <==>
        && req.Contains(t)
        && (|| (p.startTime - second < t < p.startTime && ClaimsBefore(req, c, i, second))
            || (p.endTime < t < p.endTime + second < req.endTime))
  {
    var p := c[i];
    var md, ps :| SavedBy(req, c, second, md, ps) && after == Merged(ps, second);
    OnlyAnswer(req, c, i, second);
    UnservedInstants(req, c, i, second, t);
    if FullOverlap(req, c, second) || Missing(req, c, second) == [] {
      EmptyRecord(req, c, second, md);
      NothingRecorded(c, second, ps);
    } else if Unserved(req, c, second, t) {
      assert p.Valid() && !NothingAround(req, p, second) && Meets(p, req);
      Arrange(req, c, i, second, md, ps);
      var v :| Arranged(req, c, i, second, ps, v);
      SavedMerged(req, c, i, second, ps, v);
      GrownCovers(req, c, i, second, Grown(req, c, i, second), t);
    }
  }

  lemma {:induction false} EmptyRecord(req: Period, c: seq<Period>, second: int, md: seq<Period>)
    requires SortOf(md, Missing(req, c, second), StartsAfter)
    requires FullOverlap(req, c, second) || Missing(req, c, second) == []
    ensures (if FullOverlap(req, c, second) then [] else RecordedUpTo(md, |md|, second)) == []
  {
    if Missing(req, c, second) == [] && md != [] {
      PermutationContains(md, [], md[0]);
      assert false;
    }
  }

  /** A whole second before the cached period is skipped. */
  predicate LosesBefore(req: Period, c: seq<Period>, i: nat, second: int)
    requires i < |c| && second >= 1
  {
    var p := c[i];
    p.startTime % second != 0 && ClaimsBefore(req, c, i, second) && req.Contains(p.startTime - p.startTime % second)
  }

  /** A whole second after it. */
  predicate LosesAfter(req: Period, p: Period, second: int)
    requires second >= 1
  {
    p.endTime % second != 0 && p.endTime + second < req.endTime && req.Contains(p.endTime - p.endTime % second + second)
  }

  lemma WholeBefore(p: int, second: int, t: int)
    requires second >= 1
    ensures t % second == 0 && p - second < t < p <==> p % second != 0 && t == p - p % second
  {
    PreviousMultiple(p, second);
    if t % second == 0 && p - second < t < p {
      if p % second == 0 {
        NoMultipleBetween(t, p, second);
      } else {
        var m := p - p % second;
        if t < m {
          NoMultipleBetween(t, m, second);
        } else if m < t {
          NoMultipleBetween(m, t, second);
        }
      }
    }
  }

  lemma WholeAfter(p: int, second: int, t: int)
    requires second >= 1
    ensures t % second == 0 && p < t < p + second <==> p % second != 0 && t == p - p % second + second
  {
    NextMultiple(p, second);
    if t % second == 0 && p < t < p + second {
      if p % second == 0 {
        NoMultipleBetween(p, t, second);
      } else {
        var m := p - p % second + second;
        if t < m {
          NoMultipleBetween(t, m, second);
        } else if m < t {
          NoMultipleBetween(m, t, second);
        }
      }
    }
  }

  /**
   CloudTrail events carry whole seconds. For every request that touches one cached period, the second of some event may be
   skipped for good if and only if that period starts, or ends, between two seconds and the request reaches far enough.
   */
  lemma SkipsEventIff(req: Period, c: seq<Period>, i: nat, second: int, after: seq<Period>)
    requires TouchesOnly(req, c, i, second) && SavedAs(req, c, second, after)
    ensures (exists t :: t % second == 0 && Skipped(req, c, second, after, t)) <==>
      LosesBefore(req, c, i, second) || LosesAfter(req, c[i], second)
  {
    var p := c[i];
    if LosesBefore(req, c, i, second) {
      SkippedWhole(req, c, i, second, after, p.startTime - p.startTime % second);
    }
    if LosesAfter(req, p, second) {
      SkippedWhole(req, c, i, second, after, p.endTime - p.endTime % second + second);
    }
    forall t | t % second == 0 && Skipped(req, c, second, after, t)
      ensures LosesBefore(req, c, i, second) || LosesAfter(req, p, second)
    {
      SkippedWhole(req, c, i, second, after, t);
    }
  }

  lemma SkippedWhole(req: Period, c: seq<Period>, i: nat, second: int, after: seq<Period>, t: int)
    requires TouchesOnly(req, c, i, second) && SavedAs(req, c, second, after)
    ensures var p := c[i];
      t % second == 0 && Skipped(req, c, second, after, t) <==>
        || (LosesBefore(req, c, i, second) && t == p.startTime - p.startTime % second)
        || (LosesAfter(req, p, second) && t == p.endTime - p.endTime % second + second)
  {
    SkippedInstants(req, c, i, second, after, t);
    WholeBefore(c[i].startTime, second, t);
    WholeAfter(c[i].endTime, second, t);
  }

  /**
   For any request at all whose pieces are valid: what the saved cache claims beyond the cached and recorded periods lies
   strictly inside gaps of exactly one second between them.
   */
  lemma {:induction false} ClaimedByGaps(req: Period, c: seq<Period>, second: int, md: seq<Period>, ps: seq<Period>,
                                         t: int)
    requires Spaced(c, second) && second >= 1 && SavedBy(req, c, second, md, ps) && AllValid(ps)
    ensures Skipped(req, c, second, Merged(ps, second), t) <==>
      Unserved(req, c, second, t) && (Covered(ps, t) || InSecondGap(ps, t, second))
  {
    SortedAscending(ps);
    MergedCovers(ps, second, t);
  }

  lemma MulStep(p: int, q: int, s: int)
    requires p < q && s >= 1
    ensures p * s + s <= q * s
  {
    var n := q - p - 1;
    assert n * s >= 0;
    assert q * s == (p + 1 + n) * s == p * s + s + n * s;
  }

  lemma MultipleHasNoRemainder(k: int, s: int)
    requires s >= 1
    ensures (k * s) % s == 0
  {
    var t := k * s;
    var q := t / s;
    assert t == q * s + t % s;
    if q < k {
      MulStep(q, k, s);
    } else if k < q {
      MulStep(k, q, s);
    }
  }

  lemma NextMultiple(e: int, s: int)
    requires s >= 1
    ensures (e - e % s + s) % s == 0
  {
    var k := e / s;
    assert e == k * s + e % s;
    assert (k + 1) * s == k * s + s;
    MultipleHasNoRemainder(k + 1, s);
  }

  lemma NoMultipleBetween(a: int, b: int, s: int)
    requires s >= 1 && a % s == 0 && a < b < a + s
    ensures b % s != 0
  {
    var p, q := a / s, b / s;
    assert a == p * s + a % s && b == q * s + b % s;
    if p < q {
      MulStep(p, q, s);
    } else if q < p {
      MulStep(q, p, s);
    }
  }

  lemma PreviousMultiple(e: int, s: int)
    requires s >= 1
    ensures (e - e % s) % s == 0
  {
    assert e == (e / s) * s + e % s;
    MultipleHasNoRemainder(e / s, s);
  }

  /** With ten ticks to the second, cache 5-20 and request 0-20: the piece before the cache ends before it starts. */
  lemma InvertedPieceExample()
    ensures Period(5, 20).Diff(Period(0, 20), None, 10) == [Period(0, -5)]
    ensures !AllValid(Period(5, 20).Diff(Period(0, 20), None, 10))
  {
    DiffValidIff(Period(5, 20), Period(0, 20), None, 10);
  }

  /** With ten ticks to the second, cache 0-25 and request 20-31: flagged full although 26 to 31, and second 30, are missing. */
  lemma FalseFlagExample()
    ensures var req, c := Period(20, 31), [Period(0, 25)];
      FullOverlap(req, c, 10) && !ContainedInOne(req, c) && Unserved(req, c, 10, 30)
  {
    var req, c := Period(20, 31), [Period(0, 25)];
    assert TouchesOnly(req, c, 0, 10);
    OnlyAnswer(req, c, 0, 10);
    UnservedInstants(req, c, 0, 10, 30);
  }

  /** With ten ticks to the second, cache 25-45 and request 5-30: only 5-15 is fetched, yet 5-45 is saved, with second 20 in it. */
  lemma SkippedBeforeExample()
    ensures var req, c, after := Period(5, 30), [Period(25, 45)], [Period(5, 45)];
      SavedAs(req, c, 10, after) && Skipped(req, c, 10, after, 20)
  {
    var req, c, left, after := Period(5, 30), [Period(25, 45)], Period(5, 15), [Period(5, 45)];
    assert TouchesOnly(req, c, 0, 10);
    OnlyAnswer(req, c, 0, 10);
    assert Missing(req, c, 10) == [left];
    assert RecordedUpTo([left], 0, 10) == [] && RecordedUpTo([left], 1, 10) == [left];
    SwapPair(left, c[0]);
    MergedTwo(left, c[0], 10);
    assert SavedBy(req, c, 10, [left], [left, c[0]]);
    SkippedInstants(req, c, 0, 10, after, 20);
  }

  lemma SwapPair(a: Period, b: Period)
    ensures Permutation([a, b], [b] + [a])
  {
    assert [a, b] == [a] + [b];
    forall x ensures Count([a, b], x) == Count([b] + [a], x) {
      CountConcat([a], [b], x);
      CountConcat([b], [a], x);
    }
  }

  /** With ten ticks to the second, cache 0-25 and request 20-60: only 35-60 is fetched, yet 0-60 is saved, with second 30 in it. */
  lemma SkippedAfterExample()
    ensures var req, c, after := Period(20, 60), [Period(0, 25)], [Period(0, 60)];
      SavedAs(req, c, 10, after) && Skipped(req, c, 10, after, 30)
  {
    var req, c, right, after := Period(20, 60), [Period(0, 25)], Period(35, 60), [Period(0, 60)];
    assert TouchesOnly(req, c, 0, 10);
    OnlyAnswer(req, c, 0, 10);
    assert Missing(req, c, 10) == [right];
    assert RecordedUpTo([right], 0, 10) == [] && RecordedUpTo([right], 1, 10) == [right];
    MergedTwo(c[0], right, 10);
    assert c + [right] == [c[0], right];
    assert SavedBy(req, c, 10, [right], [c[0], right]);
    SkippedInstants(req, c, 0, 10, after, 30);
  }
}
