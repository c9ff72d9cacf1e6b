/**
 cmd/cloudtrail/cache.go, `DiffMultiple`: the parts of a requested period that the cache does not hold.

 `OneSecondHole` and `Refetches` describe, in terms of the cached periods and the request alone, where
 the loop departs from the plain complement; `DiffMultipleMeaning` says exactly what it returns.
 */
module MissingPeriods {
  import opened Wrappers
  import opened Periods

  // ----- The loop and the function it computes -----

  predicate Untouched(p: Period, missing: seq<Period>, second: int := 1) {
    forall i | 0 <= i < |missing| :: !p.Overlap(missing[i], second)
  }

  /** `periodOverlap`: despite its name, true when p touches none of the missing periods. */
  method PeriodOverlap(p: Period, missing: seq<Period>, second: int := 1) returns (r: bool)
    ensures r == Untouched(p, missing, second)
  {
    for i := 0 to |missing|
      invariant forall j | 0 <= j < i :: !p.Overlap(missing[j], second)
    {
      if p.Overlap(missing[i], second) {
        return false;
      }
    }
    return true;
  }

  function AddPiece(missing: seq<Period>, p: Period, second: int := 1): seq<Period> {
    if p.startTime != p.endTime && Untouched(p, missing, second) then missing + [p] else missing
  }

  function AddPieces(missing: seq<Period>, pieces: seq<Period>, second: int := 1): seq<Period> {
    if pieces == [] then missing
    else AddPiece(AddPieces(missing, pieces[..|pieces| - 1], second), pieces[|pieces| - 1], second)
  }

  datatype DiffState = DiffState(missing: seq<Period>, hasOverlap: bool, fullOverlap: bool)

  function NextPeriod(c: seq<Period>, i: nat): Option<Period>
    requires i < |c|
  {
    if i < |c| - 1 then Some(c[i + 1]) else None
  }

  /** The condition under which an overlapping period with nothing missing counts as a full overlap. */
  predicate FullGuard(cached: Period, req: Period) {
    || cached.startTime < req.startTime
    || (cached.startTime == req.startTime && cached.endTime > req.endTime)
    || cached.endTime == req.endTime
  }

  function DiffStep(req: Period, c: seq<Period>, i: nat, st: DiffState, second: int := 1): DiffState
    requires i < |c|
  {
    if !c[i].Overlap(req, second) then st
    else
      var pieces := c[i].Diff(req, NextPeriod(c, i), second);
      if pieces == [] then st.(fullOverlap := st.fullOverlap || FullGuard(c[i], req))
      else DiffState(AddPieces(st.missing, pieces, second), true, st.fullOverlap)
  }

  /** The variables of the loop after its first n iterations. */
  function DiffUpTo(req: Period, c: seq<Period>, n: nat, second: int := 1): DiffState
    requires n <= |c|
  {
    if n == 0 then DiffState([], false, false) else DiffStep(req, c, n - 1, DiffUpTo(req, c, n - 1, second), second)
  }

  function Missing(req: Period, c: seq<Period>, second: int := 1): seq<Period> {
    var st := DiffUpTo(req, c, |c|, second);
    if st.hasOverlap then st.missing else st.missing + [req]
  }

  predicate FullOverlap(req: Period, c: seq<Period>, second: int := 1) {
    DiffUpTo(req, c, |c|, second).fullOverlap
  }

  method DiffMultiple(req: Period, c: seq<Period>, second: int := 1)
    returns (missingPeriods: seq<Period>, fullOverlap: bool)
    ensures missingPeriods == Missing(req, c, second)
    ensures fullOverlap == FullOverlap(req, c, second)
  {
    missingPeriods := [];
    var hasOverlap := false;
    fullOverlap := false;
    for i := 0 to |c|
      invariant DiffState(missingPeriods, hasOverlap, fullOverlap) == DiffUpTo(req, c, i, second)
    {
      var cachePeriod := c[i];
      if cachePeriod.Overlap(req, second) {
        var nextPeriod := None;
        if i < |c| - 1 {
          nextPeriod := Some(c[i + 1]);
        }
        var missing := cachePeriod.Diff(req, nextPeriod, second);
        if |missing| == 0 {
          if || cachePeriod.startTime < req.startTime
             || (cachePeriod.startTime == req.startTime && cachePeriod.endTime > req.endTime)
             || cachePeriod.endTime == req.endTime
          {
            fullOverlap := true;
          }
          continue;
        }
        hasOverlap := true;
        ghost var before := missingPeriods;
        for j := 0 to |missing|
          invariant missingPeriods == AddPieces(before, missing[..j], second)
        {
          assert missing[..j + 1][..j] == missing[..j];
          var untouched := PeriodOverlap(missing[j], missingPeriods, second);
          if missing[j].startTime != missing[j].endTime && untouched {
            missingPeriods := missingPeriods + [missing[j]];
          }
        }
        assert missing[..|missing|] == missing;
      }
    }
    if !hasOverlap {
      missingPeriods := missingPeriods + [req];
    }
  }

  // ----- What the cached periods say about a request -----

  ghost predicate Wants(req: Period, c: seq<Period>, t: int) {
    req.Contains(t) && !Covered(c, t)
  }

  /** An uncached second of the request whose neighbours are each cached or outside the request. */
  ghost predicate OneSecondHole(req: Period, c: seq<Period>, t: int) {
    && Wants(req, c, t)
    && !Wants(req, c, t - 1)
    && !Wants(req, c, t + 1)
  }

  ghost predicate HasHole(req: Period, c: seq<Period>) {
    exists t :: OneSecondHole(req, c, t)
  }

  ghost predicate Touches(req: Period, c: seq<Period>) {
    exists i | 0 <= i < |c| :: c[i].Overlap(req)
  }

  ghost predicate ContainedInOne(req: Period, c: seq<Period>) {
    exists i | 0 <= i < |c| :: req.Within(c[i])
  }

  /**
   The one shape of cache for which seconds already cached are fetched again: a single uncached second
   separates period k from its predecessor, the predecessor reaches back to the request's first or second
   second, and everything from the request's start up to period k is then asked for in one piece.
   */
  ghost predicate Refetches(req: Period, c: seq<Period>, k: nat) {
    && 0 < k < |c|
    && c[k - 1].endTime + 2 == c[k].startTime
    && c[k - 1].startTime <= req.startTime + 1
    && req.startTime <= c[k - 1].endTime
    && c[k].startTime <= req.endTime + 1
  }

  ghost predicate Refetched(req: Period, c: seq<Period>, t: int) {
    exists k: nat | k < |c| :: Refetches(req, c, k) && t < c[k].startTime
  }

  /** The second is among those the request asks the API for. */
  ghost predicate Asked(req: Period, c: seq<Period>, t: int) {
    || (Wants(req, c, t) && !OneSecondHole(req, c, t))
    || (req.Contains(t) && Refetched(req, c, t))
  }

  // ----- Proof: the loop invariant -----

  /** The last second of the request that lies before period n. */
  ghost function Edge(req: Period, c: seq<Period>, n: nat): int {
    if n < |c| then Min(req.endTime, c[n].startTime - 1) else req.endTime
  }

  ghost predicate TouchedBefore(req: Period, c: seq<Period>, n: nat) {
    exists i | 0 <= i < n && i < |c| :: c[i].Overlap(req)
  }

  ghost predicate RefetchedBefore(req: Period, c: seq<Period>, n: nat, t: int) {
    exists k: nat | k < n && k < |c| :: Refetches(req, c, k) && t < c[k].startTime
  }

  ghost predicate AskedBefore(req: Period, c: seq<Period>, n: nat, t: int) {
    || (Wants(req, c, t) && !OneSecondHole(req, c, t))
    || (req.Contains(t) && RefetchedBefore(req, c, n, t))
  }

  /** Every missing period but the first starts right after a cached second. */
  ghost predicate StartsAfterCached(c: seq<Period>, missing: seq<Period>) {
    forall i | 0 < i < |missing| :: Covered(c, missing[i].startTime - 1)
  }

  ghost predicate LongWithin(missing: seq<Period>, lo: int, hi: int) {
    forall i | 0 <= i < |missing| :: lo <= missing[i].startTime < missing[i].endTime <= hi
  }

  ghost predicate Inv(req: Period, c: seq<Period>, n: nat, missing: seq<Period>)
    requires n <= |c|
  {
    && NormalForm(missing)
    && LongWithin(missing, req.startTime, Edge(req, c, n))
    && StartsAfterCached(c, missing)
    && (missing == [] && n > 0 ==> c[n - 1].startTime <= req.startTime + 1 || c[n - 1].startTime > req.endTime + 1)
    && (forall t | req.startTime <= t <= Edge(req, c, n) :: Covered(missing, t) <==> AskedBefore(req, c, n, t))
  }

  lemma GapUncovered(c: seq<Period>, n: nat, t: int)
    requires NormalForm(c) && n <= |c|
    requires n > 0 ==> c[n - 1].endTime < t
    requires n < |c| ==> t < c[n].startTime
    ensures !Covered(c, t)
  {
  }

  lemma LastCovers(c: seq<Period>, n: nat, t: int)
    requires NormalForm(c) && 0 < n < |c| && Covered(c, t) && t < c[n].startTime
    ensures t <= c[n - 1].endTime
  {
    var i :| 0 <= i < |c| && c[i].Contains(t);
    assert i < n && c[i].endTime <= c[n - 1].endTime;
  }

  /** The piece before period n, as the loop sees it. */
  function Left(req: Period, c: seq<Period>, n: nat): seq<Period>
    requires n < |c|
  {
    if req.startTime < c[n].startTime then [Period(req.startTime, c[n].startTime - 1)] else []
  }

  /** The piece after period n, up to the next one. */
  ghost function Right(req: Period, c: seq<Period>, n: nat): seq<Period>
    requires n < |c|
  {
    if req.endTime > c[n].endTime then [Period(c[n].endTime + 1, Edge(req, c, n + 1))] else []
  }

  lemma DiffPieces(req: Period, c: seq<Period>, n: nat)
    requires NormalForm(c) && req.Valid() && n < |c| && c[n].Overlap(req)
    ensures c[n].Diff(req, NextPeriod(c, n)) == Left(req, c, n) + Right(req, c, n)
    ensures Left(req, c, n) + Right(req, c, n) == [] <==> req.Within(c[n])
  {
  }

  lemma {:induction false} AddOneOrTwo(m: seq<Period>, a: Period, b: Period)
    ensures AddPieces(m, [a]) == AddPiece(m, a)
    ensures AddPieces(m, [a, b]) == AddPiece(AddPiece(m, a), b)
  {
    assert [a][..0] == [] && [a, b][..1] == [a];
  }

  ghost predicate LeftInv(req: Period, c: seq<Period>, n: nat, mid: seq<Period>)
    requires n < |c|
  {
    && NormalForm(mid)
    && LongWithin(mid, req.startTime, c[n].startTime - 1)
    && StartsAfterCached(c, mid)
    && (mid == [] ==> c[n].startTime <= req.startTime + 1)
    && (forall t | req.startTime <= t < c[n].startTime :: Covered(mid, t) <==> AskedBefore(req, c, n + 1, t))
  }

  lemma SinglePiece(p: Period, t: int)
    ensures Covered([p], t) <==> p.Contains(t)
  {
    assert [p][0] == p;
  }

  /** The first period that touches the request: everything before it is uncached. */
  lemma LeftFirst(req: Period, c: seq<Period>, n: nat)
    requires NormalForm(c) && req.Valid() && n < |c| && c[n].Overlap(req)
    requires !TouchedBefore(req, c, n)
    ensures LeftInv(req, c, n, AddPieces([], Left(req, c, n)))
  {
    assert n > 0 ==> !c[n - 1].Overlap(req);
    var mid := AddPieces([], Left(req, c, n));
    assert mid == if c[n].startTime > req.startTime + 1 then Left(req, c, n) else [];
    forall t | req.startTime <= t < c[n].startTime
      ensures Covered(mid, t) <==> AskedBefore(req, c, n + 1, t)
    {
      SinglePiece(Period(req.startTime, c[n].startTime - 1), t);
      GapUncovered(c, n, t);
      assert !RefetchedBefore(req, c, n + 1, t) by {
        forall k: nat | k <= n ensures !Refetches(req, c, k) {
          assert 0 < k ==> !c[k - 1].Overlap(req);
        }
      }
      if c[n].startTime > req.startTime + 1 {
        var neighbour := if t == req.startTime then t + 1 else t - 1;
        GapUncovered(c, n, neighbour);
        assert Wants(req, c, neighbour);
      } else {
        assert c[n].Contains(t + 1);
      }
    }
  }

  /** A later period: its left piece is new only if nothing was missing so far. */
  lemma {:induction false} LeftLater(req: Period, c: seq<Period>, n: nat, m: seq<Period>)
    requires NormalForm(c) && req.Valid() && n < |c| && c[n].Overlap(req)
    requires TouchedBefore(req, c, n) && Inv(req, c, n, m)
    ensures LeftInv(req, c, n, AddPieces(m, Left(req, c, n)))
  {
    var i :| 0 <= i < n && c[i].Overlap(req);
    assert c[i].endTime <= c[n - 1].endTime;
    var h := c[n].startTime - 1;
    assert c[n - 1].endTime >= req.startTime - 1 && Edge(req, c, n) == h >= req.startTime;
    if m == [] {
      GapUncovered(c, n, h);
      assert !Covered(m, h);
      LeftWhenEmpty(req, c, n);
    } else {
      LeftWhenMissing(req, c, n, m);
    }
  }

  lemma {:induction false} LeftWhenMissing(req: Period, c: seq<Period>, n: nat, m: seq<Period>)
    requires NormalForm(c) && req.Valid() && 0 < n < |c| && c[n].Overlap(req)
    requires Inv(req, c, n, m) && m != []
    requires Edge(req, c, n) == c[n].startTime - 1 >= req.startTime
    ensures LeftInv(req, c, n, AddPieces(m, Left(req, c, n)))
  {
    var piece := Period(req.startTime, c[n].startTime - 1);
    assert piece.Overlap(m[0]);
    AddOneOrTwo(m, piece, piece);
    assert AddPieces(m, Left(req, c, n)) == m;
    NoRefetchAfterPiece(req, c, n, m);
    forall t | req.startTime <= t < c[n].startTime
      ensures AskedBefore(req, c, n, t) == AskedBefore(req, c, n + 1, t)
    {
      assert forall k: nat | Refetches(req, c, k) :: k < n <==> k < n + 1;
    }
  }

  lemma LeftWhenEmpty(req: Period, c: seq<Period>, n: nat)
    requires NormalForm(c) && req.Valid() && 0 < n < |c| && c[n].Overlap(req)
    requires c[n - 1].startTime <= req.startTime + 1 && c[n - 1].endTime >= req.startTime - 1
    requires !AskedBefore(req, c, n, c[n].startTime - 1)
    ensures LeftInv(req, c, n, AddPieces([], Left(req, c, n)))
  {
    var h := c[n].startTime - 1;
    var piece := Period(req.startTime, h);
    var mid := AddPieces([], Left(req, c, n));
    AddOneOrTwo([], piece, piece);
    assert mid == if h > req.startTime then [piece] else [];
    GapUncovered(c, n, h);
    if h > req.startTime {
      assert OneSecondHole(req, c, h);
      assert Covered(c, h - 1);
      LastCovers(c, n, h - 1);
      assert Refetches(req, c, n);
      forall t | req.startTime <= t < c[n].startTime
        ensures Covered(mid, t) && AskedBefore(req, c, n + 1, t)
      {
        SinglePiece(piece, t);
        assert Refetches(req, c, n) && t < c[n].startTime;
      }
    } else {
      assert !Refetches(req, c, n);
      forall t | req.startTime <= t < c[n].startTime
        ensures !Covered(mid, t) && !AskedBefore(req, c, n + 1, t)
      {
        assert t == h;
      }
    }
  }

  /** Once a piece is missing, the refetching shape cannot come up any more. */
  lemma NoRefetchAfterPiece(req: Period, c: seq<Period>, n: nat, m: seq<Period>)
    requires NormalForm(c) && req.Valid() && 0 < n < |c| && c[n].Overlap(req)
    requires Inv(req, c, n, m) && m != []
    ensures !Refetches(req, c, n)
  {
    if Refetches(req, c, n) {
      var p := m[0];
      assert p.Contains(p.startTime) && p.Contains(p.startTime + 1);
      assert Covered(m, p.startTime) && Covered(m, p.startTime + 1);
      assert AskedBefore(req, c, n, p.startTime) && AskedBefore(req, c, n, p.startTime + 1);
      forall k: nat | k < n ensures !Refetches(req, c, k) {
      }
      assert false;
    }
  }

  /** What is missing after period n has been dealt with: the right piece, unless it is a single second. */
  ghost function WithRight(req: Period, c: seq<Period>, n: nat, mid: seq<Period>): seq<Period>
    requires n < |c|
  {
    if req.endTime > c[n].endTime && c[n].endTime + 1 < Edge(req, c, n + 1)
    then mid + [Period(c[n].endTime + 1, Edge(req, c, n + 1))]
    else mid
  }

  /** The piece after a period never touches what is missing before it. */
  lemma {:induction false} RightPiece(req: Period, c: seq<Period>, n: nat, mid: seq<Period>)
    requires NormalForm(c) && req.Valid() && n < |c| && c[n].Overlap(req)
    requires LongWithin(mid, req.startTime, c[n].startTime - 1)
    ensures AddPieces(mid, Right(req, c, n)) == WithRight(req, c, n, mid)
  {
    if req.endTime > c[n].endTime {
      var piece := Period(c[n].endTime + 1, Edge(req, c, n + 1));
      AddOneOrTwo(mid, piece, piece);
      assert Untouched(piece, mid);
    }
  }

  lemma RightShape(req: Period, c: seq<Period>, n: nat, mid: seq<Period>)
    requires NormalForm(c) && req.Valid() && n < |c| && c[n].Overlap(req)
    requires NormalForm(mid) && LongWithin(mid, req.startTime, c[n].startTime - 1) && StartsAfterCached(c, mid)
    ensures var m := WithRight(req, c, n, mid);
      NormalForm(m) && LongWithin(m, req.startTime, Edge(req, c, n + 1)) && StartsAfterCached(c, m)
  {
    assert c[n].Contains(c[n].endTime);
  }

  lemma {:induction false} RightStep(req: Period, c: seq<Period>, n: nat, mid: seq<Period>)
    requires NormalForm(c) && req.Valid() && n < |c| && c[n].Overlap(req)
    requires LeftInv(req, c, n, mid)
    ensures Inv(req, c, n + 1, AddPieces(mid, Right(req, c, n)))
  {
    RightPiece(req, c, n, mid);
    RightShape(req, c, n, mid);
    var m := WithRight(req, c, n, mid);
    forall t | req.startTime <= t <= Edge(req, c, n + 1)
      ensures Covered(m, t) <==> AskedBefore(req, c, n + 1, t)
    {
      CoveredAppend(mid, Period(c[n].endTime + 1, Edge(req, c, n + 1)), t);
      if t > c[n].endTime {
        RightAsked(req, c, n, t);
      } else if t >= c[n].startTime {
        assert c[n].Contains(t);
        NotRefetchedAfter(req, c, n, t);
      }
    }
  }

  lemma NotRefetchedAfter(req: Period, c: seq<Period>, n: nat, t: int)
    requires NormalForm(c) && n < |c| && t >= c[n].startTime
    ensures !RefetchedBefore(req, c, n + 1, t)
  {
  }

  /** The seconds between a period and the next are asked for unless there is only one of them. */
  lemma RightAsked(req: Period, c: seq<Period>, n: nat, t: int)
    requires NormalForm(c) && req.Valid() && n < |c| && c[n].Overlap(req)
    requires req.startTime <= t <= Edge(req, c, n + 1) && t > c[n].endTime
    ensures AskedBefore(req, c, n + 1, t) <==> c[n].endTime + 1 < Edge(req, c, n + 1)
  {
    var e := Edge(req, c, n + 1);
    NotRefetchedAfter(req, c, n, t);
    GapUncovered(c, n + 1, t);
    if c[n].endTime + 1 < e {
      var neighbour := if t == e then t - 1 else t + 1;
      GapUncovered(c, n + 1, neighbour);
      assert Wants(req, c, neighbour);
    } else {
      assert c[n].Contains(t - 1);
      if n + 1 < |c| && e < req.endTime {
        assert c[n + 1].Contains(t + 1);
      }
    }
  }

  lemma {:induction false} AddBoth(m: seq<Period>, a: seq<Period>, b: seq<Period>)
    requires |b| <= 1
    ensures AddPieces(m, a + b) == AddPieces(AddPieces(m, a), b)
  {
    if b == [] {
      assert a + b == a;
    } else {
      assert (a + b)[..|a|] == a && b[..0] == [];
    }
  }

  lemma {:induction false} DiffInvariant(req: Period, c: seq<Period>, n: nat)
    requires NormalForm(c) && req.Valid() && n <= |c| && !ContainedInOne(req, c)
    ensures StateInv(req, c, n, DiffUpTo(req, c, n))
  {
    if n > 0 {
      var i, st := n - 1, DiffUpTo(req, c, n - 1);
      DiffInvariant(req, c, i);
      if c[i].Overlap(req) {
        TouchingStep(req, c, i, st);
      } else {
        if st.hasOverlap {
          PastRequest(req, c, i, st.missing);
        }
      }
    }
  }

  ghost predicate StateInv(req: Period, c: seq<Period>, n: nat, st: DiffState)
    requires n <= |c|
  {
    && !st.fullOverlap
    && (st.hasOverlap <==> TouchedBefore(req, c, n))
    && (if st.hasOverlap then Inv(req, c, n, st.missing) else st.missing == [])
  }

  lemma TouchingStep(req: Period, c: seq<Period>, i: nat, st: DiffState)
    requires NormalForm(c) && req.Valid() && i < |c| && c[i].Overlap(req) && !req.Within(c[i])
    requires StateInv(req, c, i, st)
    ensures StateInv(req, c, i + 1, DiffStep(req, c, i, st))
  {
    DiffPieces(req, c, i);
    AddBoth(st.missing, Left(req, c, i), Right(req, c, i));
    if st.hasOverlap {
      LeftLater(req, c, i, st.missing);
    } else {
      LeftFirst(req, c, i);
    }
    RightStep(req, c, i, AddPieces(st.missing, Left(req, c, i)));
  }

  /** A period beyond the request changes nothing. */
  lemma PastRequest(req: Period, c: seq<Period>, i: nat, m: seq<Period>)
    requires NormalForm(c) && req.Valid() && i < |c| && !c[i].Overlap(req)
    requires TouchedBefore(req, c, i) && Inv(req, c, i, m)
    ensures Inv(req, c, i + 1, m)
  {
    var k :| 0 <= k < i && c[k].Overlap(req);
    assert c[k].endTime + 1 < c[i].startTime;
    assert !Refetches(req, c, i);
    assert forall t :: AskedBefore(req, c, i, t) == AskedBefore(req, c, i + 1, t);
  }

  // ----- What DiffMultiple returns -----

  /** The full flag is true exactly when one cached period contains the request; the request is then returned whole. */
  lemma {:induction false} FullOverlapIff(req: Period, c: seq<Period>)
    requires NormalForm(c) && req.Valid()
    ensures FullOverlap(req, c) <==> ContainedInOne(req, c)
    ensures FullOverlap(req, c) ==> Missing(req, c) == [req]
  {
    if ContainedInOne(req, c) {
      var i :| 0 <= i < |c| && req.Within(c[i]);
      FullState(req, c, i, |c|);
    } else {
      DiffInvariant(req, c, |c|);
    }
  }

  lemma {:induction false} FullState(req: Period, c: seq<Period>, i: nat, n: nat)
    requires NormalForm(c) && req.Valid() && i < |c| && req.Within(c[i]) && n <= |c|
    ensures DiffUpTo(req, c, n) == DiffState([], false, i < n)
  {
    if n > 0 {
      FullState(req, c, i, n - 1);
      if n - 1 == i {
        DiffPieces(req, c, i);
      }
    }
  }

  /**
   The meaning of DiffMultiple for any normal-form cache and valid request that is not a full hit: when
   nothing cached touches the request it is returned whole; otherwise a second is returned exactly when it
   is `Asked`, that is when it is missing and not a one-second hole, or is swept up by a refetch.
   */
  lemma DiffMultipleMeaning(req: Period, c: seq<Period>, t: int)
    requires NormalForm(c) && req.Valid() && !ContainedInOne(req, c)
    ensures Covered(Missing(req, c), t) <==> if Touches(req, c) then Asked(req, c, t) else req.Contains(t)
  {
    DiffInvariant(req, c, |c|);
    SinglePiece(req, t);
    var m := DiffUpTo(req, c, |c|).missing;
    if Touches(req, c) {
      assert TouchedBefore(req, c, |c|);
      assert AskedBefore(req, c, |c|, t) == Asked(req, c, t);
      assert Missing(req, c) == m;
    } else {
      assert Missing(req, c) == [req];
    }
  }

  /** Whatever the request, the returned periods are valid, disjoint, inside it, and set apart by cached seconds. */
  lemma DiffMultipleShape(req: Period, c: seq<Period>)
    requires NormalForm(c) && req.Valid()
    ensures var m := Missing(req, c);
      && NormalForm(m)
      && (forall i | 0 <= i < |m| :: m[i].Within(req))
      && StartsAfterCached(c, m)
  {
    FullOverlapIff(req, c);
    if !ContainedInOne(req, c) {
      DiffInvariant(req, c, |c|);
    }
  }

  /** The refetching shape is a one-second hole followed and preceded by cached seconds of the request. */
  lemma RefetchesHole(req: Period, c: seq<Period>, k: nat)
    requires NormalForm(c) && req.Valid() && Refetches(req, c, k)
    ensures OneSecondHole(req, c, c[k].startTime - 1)
    ensures req.Contains(c[k - 1].endTime) && Covered(c, c[k - 1].endTime) && Asked(req, c, c[k - 1].endTime)
  {
    var h := c[k].startTime - 1;
    GapUncovered(c, k, h);
    assert c[k - 1].Contains(h - 1) && c[k].Contains(h + 1);
    assert Refetches(req, c, k) && h - 1 < c[k].startTime;
  }

  ghost predicate ExactComplement(req: Period, c: seq<Period>) {
    forall t :: Covered(Missing(req, c), t) <==> Wants(req, c, t)
  }

  /** DiffMultiple returns exactly the missing seconds if and only if nothing touches the request or it has no one-second hole. */
  lemma ExactComplementIff(req: Period, c: seq<Period>)
    requires NormalForm(c) && req.Valid() && !ContainedInOne(req, c)
    ensures ExactComplement(req, c) <==> !Touches(req, c) || !HasHole(req, c)
  {
    forall t {
      DiffMultipleMeaning(req, c, t);
    }
    if Touches(req, c) && !HasHole(req, c) {
      forall k: nat ensures !Refetches(req, c, k) {
        if Refetches(req, c, k) {
          RefetchesHole(req, c, k);
          assert false;
        }
      }
    }
    if Touches(req, c) && HasHole(req, c) && ExactComplement(req, c) {
      var t :| OneSecondHole(req, c, t);
      assert Covered(Missing(req, c), t);
      var k: nat :| k < |c| && Refetches(req, c, k) && t < c[k].startTime;
      RefetchesHole(req, c, k);
      assert false;
    }
  }

  /** A requested second that no returned period covers and the cache does not hold: its events are never fetched. */
  ghost predicate Lost(req: Period, c: seq<Period>, t: int) {
    Touches(req, c) && OneSecondHole(req, c, t) && !Refetched(req, c, t)
  }

  ghost predicate LosesSeconds(req: Period, c: seq<Period>) {
    exists t :: Lost(req, c, t)
  }

  /** Every requested second is cached or returned, except for exactly the lost ones. */
  lemma CoverageUpToLost(req: Period, c: seq<Period>, t: int)
    requires NormalForm(c) && req.Valid() && req.Contains(t)
    ensures Covered(c, t) || Covered(Missing(req, c), t) <==> ContainedInOne(req, c) || !Lost(req, c, t)
  {
    if ContainedInOne(req, c) {
      var i :| 0 <= i < |c| && req.Within(c[i]);
      assert c[i].Contains(t);
    } else {
      DiffMultipleMeaning(req, c, t);
    }
  }

  /** Without one-second holes nothing is lost and nothing is fetched twice. */
  lemma NoHoleNoLoss(req: Period, c: seq<Period>)
    requires NormalForm(c) && req.Valid() && !HasHole(req, c)
    ensures !LosesSeconds(req, c)
    ensures !ContainedInOne(req, c) ==> forall t | Covered(Missing(req, c), t) :: !Covered(c, t)
    ensures !ContainedInOne(req, c) ==> Missing(req, c) != []
  {
    if !ContainedInOne(req, c) {
      ExactComplementIff(req, c);
      WindowInOnePeriod(c, req);
      var t :| req.Contains(t) && !Covered(c, t);
      assert Wants(req, c, t);
    }
  }

  /** A cached second is returned exactly when a refetch sweeps it up. */
  lemma ReturnedAgainIff(req: Period, c: seq<Period>, t: int)
    requires NormalForm(c) && req.Valid() && !ContainedInOne(req, c) && Covered(c, t)
    ensures Covered(Missing(req, c), t) <==> req.Contains(t) && Refetched(req, c, t)
  {
    DiffMultipleMeaning(req, c, t);
    if req.Contains(t) {
      var i :| 0 <= i < |c| && c[i].Contains(t);
      assert c[i].Overlap(req);
    }
  }

  ghost predicate RefetchesSome(req: Period, c: seq<Period>) {
    exists k: nat :: Refetches(req, c, k)
  }

  /** Something cached is returned if and only if the cache has the refetching shape somewhere. */
  lemma RefetchesSomeIff(req: Period, c: seq<Period>)
    requires NormalForm(c) && req.Valid() && !ContainedInOne(req, c)
    ensures (exists t :: Covered(Missing(req, c), t) && Covered(c, t)) <==> RefetchesSome(req, c)
  {
    if exists t :: Covered(Missing(req, c), t) && Covered(c, t) {
      var t :| Covered(Missing(req, c), t) && Covered(c, t);
      ReturnedAgainIff(req, c, t);
    }
    if RefetchesSome(req, c) {
      var k: nat :| Refetches(req, c, k);
      RefetchesHole(req, c, k);
      assert c[k - 1].endTime < c[k].startTime;
      ReturnedAgainIff(req, c, c[k - 1].endTime);
    }
  }

  /** The answer is empty exactly when something cached touches the request and every missing second is lost. */
  lemma EmptyAnswerIff(req: Period, c: seq<Period>)
    requires NormalForm(c) && req.Valid() && !ContainedInOne(req, c)
    ensures Missing(req, c) == [] <==> Touches(req, c) && forall t | Wants(req, c, t) :: Lost(req, c, t)
  {
    var m := Missing(req, c);
    if m == [] {
      assert req.Contains(req.startTime);
      DiffMultipleMeaning(req, c, req.startTime);
      forall t | Wants(req, c, t) ensures Lost(req, c, t) {
        DiffMultipleMeaning(req, c, t);
      }
    }
    if Touches(req, c) && (forall t | Wants(req, c, t) :: Lost(req, c, t)) && m != [] {
      var t := m[0].startTime;
      DiffMultipleShape(req, c);
      EndpointsCovered(m, 0);
      DiffMultipleMeaning(req, c, t);
      NothingSweptUp(req, c, t);
      assert false;
    }
  }

  /** The last returned second is never a cached one. */
  lemma LastReturnedUncached(req: Period, c: seq<Period>)
    requires NormalForm(c) && req.Valid() && !ContainedInOne(req, c) && Missing(req, c) != []
    ensures !Covered(c, Missing(req, c)[|Missing(req, c)| - 1].endTime)
  {
    var m := Missing(req, c);
    var e := m[|m| - 1].endTime;
    DiffMultipleShape(req, c);
    EndpointsCovered(m, |m| - 1);
    if Covered(c, e) {
      ReturnedAgainIff(req, c, e);
      var k: nat :| k < |c| && Refetches(req, c, k) && e < c[k].startTime;
      RefetchesHole(req, c, k);
      assert Touches(req, c);
      assert Refetched(req, c, e + 1);
      DiffMultipleMeaning(req, c, e + 1);
      NextUncovered(m, |m| - 1);
      assert false;
    }
  }

  /** Among the cached seconds that are returned, the first returned one can only be the first of the request. */
  lemma FirstReturnedAgain(req: Period, c: seq<Period>, t: int)
    requires NormalForm(c) && req.Valid() && !ContainedInOne(req, c)
    requires Covered(c, t) && Covered(Missing(req, c), t)
    ensures t == Missing(req, c)[0].startTime <==> t == req.startTime
  {
    var m := Missing(req, c);
    DiffMultipleShape(req, c);
    ReturnedAgainIff(req, c, t);
    var k: nat :| k < |c| && Refetches(req, c, k) && t < c[k].startTime;
    RefetchesHole(req, c, k);
    assert Refetched(req, c, req.startTime);
    DiffMultipleMeaning(req, c, req.startTime);
    assert Covered(m, req.startTime);
    FirstBounds(m, req.startTime);
    assert m[0].Within(req);
  }

  /** If every missing second is lost, no refetch sweeps anything up. */
  lemma NothingSweptUp(req: Period, c: seq<Period>, t: int)
    requires NormalForm(c) && req.Valid()
    requires forall s | Wants(req, c, s) :: Lost(req, c, s)
    ensures !Refetched(req, c, t)
  {
    if Refetched(req, c, t) {
      var k: nat :| k < |c| && Refetches(req, c, k) && t < c[k].startTime;
      RefetchesHole(req, c, k);
      assert false;
    }
  }

  // ----- The departures, on concrete caches -----

  /** Cache 10-20, 30-40, 42-50 and request 10-60: second 41 is neither cached nor returned. */
  lemma LostSecondExample()
    ensures var c, req := [Period(10, 20), Period(30, 40), Period(42, 50)], Period(10, 60);
      NormalForm(c) && Lost(req, c, 41) && !Covered(c, 41) && !Covered(Missing(req, c), 41)
  {
    var c, req := [Period(10, 20), Period(30, 40), Period(42, 50)], Period(10, 60);
    assert c[0].Overlap(req);
    assert c[1].Contains(40) && c[2].Contains(42);
    CoverageUpToLost(req, c, 41);
  }

  /** Cache 10-20 and request 10-21: nothing is returned, although second 21 is missing and the hit is not full. */
  lemma EmptyAnswerExample()
    ensures var c, req := [Period(10, 20)], Period(10, 21);
      NormalForm(c) && Missing(req, c) == [] && !FullOverlap(req, c) && Lost(req, c, 21)
  {
    var c, req := [Period(10, 20)], Period(10, 21);
    AddOneOrTwo([], Period(21, 21), req);
    assert c[0].Diff(req, None) == [Period(21, 21)];
    assert DiffUpTo(req, c, 0) == DiffState([], false, false);
    assert DiffUpTo(req, c, 1) == DiffState([], true, false);
    assert c[0].Contains(20) && c[0].Overlap(req);
  }

  /** Cache 5-20, 22-40 and request 10-40: the cached second 10 is asked for again. */
  lemma RefetchExample()
    ensures var c, req := [Period(5, 20), Period(22, 40)], Period(10, 40);
      NormalForm(c) && Refetches(req, c, 1) && Covered(c, 10) && Covered(Missing(req, c), 10)
  {
    var c, req := [Period(5, 20), Period(22, 40)], Period(10, 40);
    assert c[0].Overlap(req) && c[0].Contains(10);
    assert Refetches(req, c, 1) && 10 < c[1].startTime;
    DiffMultipleMeaning(req, c, 10);
  }

  // ----- Requests whose start is after their end -----

  lemma {:induction false} InvertedState(req: Period, c: seq<Period>, n: nat)
    requires NormalForm(c) && !req.Valid() && n <= |c|
    ensures DiffUpTo(req, c, n) == DiffState([], false, TouchedBefore(req, c, n))
  {
    if n > 0 {
      InvertedState(req, c, n - 1);
      if c[n - 1].Overlap(req) {
        assert c[n - 1].Diff(req, NextPeriod(c, n - 1)) == [];
      }
    }
  }

  /** Start after end is not rejected: the request comes back as it is, flagged as a full hit if any cached period touches it. */
  lemma InvertedAnswer(req: Period, c: seq<Period>)
    requires NormalForm(c) && !req.Valid()
    ensures Missing(req, c) == [req]
    ensures FullOverlap(req, c) <==> Touches(req, c)
  {
    InvertedState(req, c, |c|);
  }
}
