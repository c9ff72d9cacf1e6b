/**
 cmd/cloudtrail/time.go: closed time periods, and the algebra the cache is built on.

 An instant is an integer number of ticks. `second` is the length of one second in ticks; it is 1
 wherever it is left out, which is the whole-second time of CloudTrail events.
 */
module Periods {
  import opened Wrappers
  import Sorting

  function Min(a: int, b: int): int { if a < b then a else b }

  function Max(a: int, b: int): int { if a < b then b else a }

  datatype Period = Period(startTime: int, endTime: int) {

    predicate Contains(t: int) {
      startTime <= t <= endTime
    }

    predicate Valid() {
      startTime <= endTime
    }

    predicate Within(outer: Period) {
      outer.startTime <= startTime && endTime <= outer.endTime
    }

    /** True when the two periods share an instant or follow each other at a distance of one second. */
    predicate Overlap(other: Period, second: int := 1) {
      || (endTime >= other.startTime && startTime <= other.endTime)
      || endTime == other.startTime
      || endTime + second == other.startTime
      || other.endTime == startTime
      || other.endTime + second == startTime
    }

    /** What is missing from req around this cached period, up to the next cached period. */
    function Diff(req: Period, nextPeriod: Option<Period>, second: int := 1): (result: seq<Period>) {
      if !Overlap(req, second) then
        [req]
      else if this == req then
        []
      else
        var before := if req.startTime < startTime then [Period(req.startTime, startTime - second)] else [];
        if req.endTime > endTime then
          var remaining := Period(endTime + second, req.endTime);
          var cut := if nextPeriod.Some? && nextPeriod.value.Overlap(remaining, second)
                     then remaining.(endTime := nextPeriod.value.startTime - second)
                     else remaining;
          if cut.startTime <= cut.endTime then before + [cut] else before
        else
          before
    }
  }

  /** `Periods.Less`. */
  predicate StartsBefore(a: Period, b: Period) {
    a.startTime < b.startTime
  }

  /** `sort.Reverse(Periods)`. */
  predicate StartsAfter(a: Period, b: Period) {
    b.startTime < a.startTime
  }

  predicate Covered(ps: seq<Period>, t: int) {
    exists i | 0 <= i < |ps| :: ps[i].Contains(t)
  }

  predicate AllValid(ps: seq<Period>) {
    forall i | 0 <= i < |ps| :: ps[i].Valid()
  }

  predicate Ascending(ps: seq<Period>) {
    forall i, j | 0 <= i < j < |ps| :: ps[i].startTime <= ps[j].startTime
  }

  /** Sorted valid periods with at least one whole uncovered second between any two. */
  predicate NormalForm(ps: seq<Period>) {
    && AllValid(ps)
    && (forall i, j | 0 <= i < j < |ps| :: ps[i].endTime + 1 < ps[j].startTime)
  }

  ghost predicate Joins(r: Period, p: Period, q: Period) {
    forall t :: r.Contains(t) <==> p.Contains(t) || q.Contains(t)
  }

  /** Valid periods overlap, in the sense of the source, exactly when the seconds of both together form one period. */
  lemma OverlapIff(p: Period, q: Period)
    requires p.Valid() && q.Valid()
    ensures p.Overlap(q) <==> exists r :: Joins(r, p, q)
  {
    if p.Overlap(q) {
      assert Joins(Period(Min(p.startTime, q.startTime), Max(p.endTime, q.endTime)), p, q);
    }
    if exists r :: Joins(r, p, q) {
      var r :| Joins(r, p, q);
      var gap := if p.endTime < q.startTime then p.endTime + 1 else q.endTime + 1;
      assert r.Contains(p.startTime) && r.Contains(q.startTime) && r.Contains(p.endTime) && r.Contains(q.endTime);
      assert r.Contains(gap) ==> p.Contains(gap) || q.Contains(gap);
    }
  }

  /** Up to the next cached period, a period that touches the request leaves missing exactly what it does not hold of it. */
  lemma DiffCovers(p: Period, req: Period, next: Option<Period>, t: int)
    requires p.Valid() && req.Valid() && p.Overlap(req)
    requires next.Some? ==> next.value.Valid() && p.endTime + 1 < next.value.startTime
    ensures AllValid(p.Diff(req, next))
    ensures Covered(p.Diff(req, next), t) <==>
      req.Contains(t) && !p.Contains(t) && (next.Some? ==> t < next.value.startTime)
  {
    var before := Period(req.startTime, p.startTime - 1);
    var last := if next.Some? then Min(req.endTime, next.value.startTime - 1) else req.endTime;
    var after := Period(p.endTime + 1, last);
    var left: seq<Period> := if req.startTime < p.startTime then [before] else [];
    var right: seq<Period> := if req.endTime > p.endTime then [after] else [];
    assert p.Diff(req, next) == left + right;
    if left != [] && before.Contains(t) {
      assert (left + right)[0].Contains(t);
    }
    if right != [] && after.Contains(t) {
      assert (left + right)[|left|].Contains(t);
    }
  }

  /** At any granularity the pieces are valid unless the request starts less than a second before the cached period. */
  lemma DiffValidIff(p: Period, req: Period, next: Option<Period>, second: int)
    requires p.Valid() && req.Valid() && second >= 1
    ensures AllValid(p.Diff(req, next, second)) <==>
      !(p.Overlap(req, second) && p != req && req.startTime < p.startTime < req.startTime + second)
  {
    var pieces := p.Diff(req, next, second);
    if p.Overlap(req, second) && p != req && req.startTime < p.startTime {
      assert pieces[0] == Period(req.startTime, p.startTime - second);
    }
  }

  // ----- Merge -----

  function MergeStep(merged: seq<Period>, p: Period, second: int := 1): seq<Period> {
    if merged == [] then [p]
    else
      var last := |merged| - 1;
      var prev := merged[last];
      if prev.Overlap(p, second)
      then merged[last := Period(Min(prev.startTime, p.startTime), Max(prev.endTime, p.endTime))]
      else merged + [p]
  }

  function Merged(ps: seq<Period>, second: int := 1): seq<Period> {
    if ps == [] then [] else MergeStep(Merged(ps[..|ps| - 1], second), ps[|ps| - 1], second)
  }

  method Merge(allPeriods: seq<Period>, second: int := 1) returns (mergedPeriod: seq<Period>)
    ensures mergedPeriod == Merged(allPeriods, second)
  {
    mergedPeriod := [];
    for i := 0 to |allPeriods|
      invariant mergedPeriod == Merged(allPeriods[..i], second)
    {
      var period := allPeriods[i];
      assert allPeriods[..i + 1][..i] == allPeriods[..i];
      if |mergedPeriod| == 0 {
        mergedPeriod := mergedPeriod + [period];
        continue;
      }
      var last := |mergedPeriod| - 1;
      var prev := mergedPeriod[last];
      if prev.Overlap(period, second) {
        if period.startTime < prev.startTime {
          prev := prev.(startTime := period.startTime);
        }
        if period.endTime > prev.endTime {
          prev := prev.(endTime := period.endTime);
        }
        mergedPeriod := mergedPeriod[last := prev];
      } else {
        mergedPeriod := mergedPeriod + [period];
      }
    }
    assert allPeriods[..|allPeriods|] == allPeriods;
  }

  /** t lies strictly inside a gap of ps that is exactly one second long and that no period of ps enters. */
  ghost predicate InSecondGap(ps: seq<Period>, t: int, second: int) {
    exists i, j | 0 <= i < |ps| && 0 <= j < |ps| :: SecondGap(ps, i, j, second) && ps[i].endTime < t < ps[j].startTime
  }

  ghost predicate SecondGap(ps: seq<Period>, i: int, j: int, second: int)
    requires 0 <= i < |ps| && 0 <= j < |ps|
  {
    && ps[j].startTime == ps[i].endTime + second
    && (forall k | 0 <= k < |ps| :: ps[k].endTime <= ps[i].endTime || ps[j].startTime <= ps[k].startTime)
  }

  /** What the last merged period knows about the periods merged so far. */
  ghost predicate LastMerged(ps: seq<Period>, merged: seq<Period>) {
    && |ps| > 0 && |merged| > 0
    && (forall k | 0 <= k < |ps| :: ps[k].endTime <= merged[|merged| - 1].endTime)
    && (exists k | 0 <= k < |ps| :: ps[k].endTime == merged[|merged| - 1].endTime)
    && (exists k | 0 <= k < |ps| :: ps[k].startTime == merged[|merged| - 1].startTime)
  }

  lemma {:induction false} MergedLast(ps: seq<Period>, second: int)
    requires ps != [] && Ascending(ps) && AllValid(ps)
    ensures LastMerged(ps, Merged(ps, second))
  {
    var n := |ps| - 1;
    var front, p := ps[..n], ps[n];
    if front == [] {
      assert Merged(ps, second) == [p];
    } else {
      MergedLast(front, second);
      MergedLastNext(ps, Merged(front, second), second);
    }
  }

  lemma MergedLastNext(ps: seq<Period>, merged: seq<Period>, second: int)
    requires |ps| > 1 && Ascending(ps) && AllValid(ps)
    requires LastMerged(ps[..|ps| - 1], merged)
    ensures LastMerged(ps, MergeStep(merged, ps[|ps| - 1], second))
  {
    var n := |ps| - 1;
    var front, prev := ps[..n], merged[|merged| - 1];
    var step := MergeStep(merged, ps[n], second);
    var i :| 0 <= i < n && front[i].endTime == prev.endTime;
    var j :| 0 <= j < n && front[j].startTime == prev.startTime;
    assert ps[j].startTime <= ps[n].startTime && ps[j].endTime <= prev.endTime;
    var last := step[|step| - 1];
    assert last.startTime == ps[j].startTime || last.startTime == ps[n].startTime;
    assert last.endTime == ps[i].endTime || last.endTime == ps[n].endTime;
    forall k | 0 <= k < |ps| ensures ps[k].endTime <= last.endTime {
      assert k < n ==> ps[k] == front[k];
    }
  }

  /** Appending a period adds the gap before it, if that gap is one second long, and loses none. */
  lemma SecondGapNext(ps: seq<Period>, t: int, second: int)
    requires ps != [] && Ascending(ps) && AllValid(ps) && second >= 1
    ensures var n := |ps| - 1; var front := ps[..n];
      InSecondGap(ps, t, second) <==>
        || InSecondGap(front, t, second)
        || (exists i | 0 <= i < n :: SecondGap(ps, i, n, second) && ps[i].endTime < t < ps[n].startTime)
  {
    var n := |ps| - 1;
    var front := ps[..n];
    if InSecondGap(front, t, second) {
      var i, j :| 0 <= i < n && 0 <= j < n && SecondGap(front, i, j, second) && front[i].endTime < t < front[j].startTime;
      GapKept(ps, i, j, second);
    }
    if InSecondGap(ps, t, second) {
      var i, j :| 0 <= i <= n && 0 <= j <= n && SecondGap(ps, i, j, second) && ps[i].endTime < t < ps[j].startTime;
      assert ps[j].startTime <= ps[n].startTime <= ps[n].endTime;
      if j < n {
        GapKept(ps, i, j, second);
      }
    }
  }

  lemma GapKept(ps: seq<Period>, i: nat, j: nat, second: int)
    requires ps != [] && Ascending(ps) && i < |ps| - 1 && j < |ps| - 1
    ensures SecondGap(ps, i, j, second) <==> SecondGap(ps[..|ps| - 1], i, j, second)
  {
    var front := ps[..|ps| - 1];
    assert forall k | 0 <= k < |front| :: front[k] == ps[k];
  }

  /**
   Merging sorted valid periods loses no instant at any tick granularity, and the instants it adds are
   exactly those strictly inside a gap of exactly one second.
   */
  lemma {:induction false} MergedCovers(ps: seq<Period>, second: int, t: int)
    requires Ascending(ps) && AllValid(ps) && second >= 1
    ensures Covered(Merged(ps, second), t) <==> Covered(ps, t) || InSecondGap(ps, t, second)
  {
    if ps != [] {
      var n := |ps| - 1;
      var front, p := ps[..n], ps[n];
      MergedCovers(front, second, t);
      assert ps == front + [p];
      CoveredAppend(front, p, t);
      SecondGapNext(ps, t, second);
      if front == [] {
        assert Merged(ps, second) == [p];
      } else {
        MergedLast(front, second);
        MergedCoversNext(ps, Merged(front, second), second, t);
      }
    }
  }

  lemma MergedCoversNext(ps: seq<Period>, merged: seq<Period>, second: int, t: int)
    requires |ps| > 1 && Ascending(ps) && AllValid(ps) && second >= 1
    requires LastMerged(ps[..|ps| - 1], merged)
    requires InSecondGap(ps[..|ps| - 1], t, second) ==> Covered(merged, t)
    ensures var n := |ps| - 1;
      Covered(MergeStep(merged, ps[n], second), t) <==>
        || Covered(merged, t) || ps[n].Contains(t)
        || (exists i | 0 <= i < n :: SecondGap(ps, i, n, second) && ps[i].endTime < t < ps[n].startTime)
  {
    var n := |ps| - 1;
    var prev := merged[|merged| - 1];
    var s :| 0 <= s < n && ps[s].startTime == prev.startTime;
    var e :| 0 <= e < n && ps[e].endTime == prev.endTime;
    assert ps[s].startTime <= ps[n].startTime && ps[s].endTime <= prev.endTime;
    MergeStepCovers(merged, ps[n], second, t);
    if ps[n].startTime == prev.endTime + second {
      assert SecondGap(ps, e, n, second);
    }
    forall i | 0 <= i < n && SecondGap(ps, i, n, second) && ps[i].endTime < t < ps[n].startTime
      ensures ps[i].endTime == prev.endTime || Covered(merged, t)
    {
      if ps[i].endTime < ps[e].endTime {
        GapBeforeNext(ps, i, e, t, second);
      }
    }
  }

  lemma CoveredAppend(front: seq<Period>, p: Period, t: int)
    ensures Covered(front + [p], t) <==> Covered(front, t) || p.Contains(t)
  {
    if Covered(front, t) {
      var i :| 0 <= i < |front| && front[i].Contains(t);
      assert (front + [p])[i].Contains(t);
    }
    if p.Contains(t) {
      assert (front + [p])[|front|].Contains(t);
    }
  }

  lemma MergeStepCovers(merged: seq<Period>, p: Period, second: int, t: int)
    requires merged != [] && p.Valid() && second >= 1
    requires merged[|merged| - 1].Valid() && merged[|merged| - 1].startTime <= p.startTime
    ensures Covered(MergeStep(merged, p, second), t) <==>
      || Covered(merged, t) || p.Contains(t)
      || (p.startTime == merged[|merged| - 1].endTime + second && merged[|merged| - 1].endTime < t < p.startTime)
  {
    var last := |merged| - 1;
    var prev := merged[last];
    var step := MergeStep(merged, p, second);
    CoveredAppend(merged[..last], prev, t);
    assert merged == merged[..last] + [prev];
    if prev.Overlap(p, second) {
      CoveredAppend(merged[..last], step[last], t);
      assert step == merged[..last] + [step[last]];
    } else {
      CoveredAppend(merged, p, t);
    }
  }

  /** A gap before the newest period starts where the last merged period ends, unless it was there already. */
  lemma GapBeforeNext(ps: seq<Period>, i: nat, e: nat, t: int, second: int)
    requires ps != [] && Ascending(ps) && i < |ps| - 1 && e < |ps| - 1
    requires SecondGap(ps, i, |ps| - 1, second) && ps[i].endTime < t < ps[|ps| - 1].startTime
    requires ps[i].endTime < ps[e].endTime
    ensures InSecondGap(ps[..|ps| - 1], t, second)
  {
    var front := ps[..|ps| - 1];
    assert ps[|ps| - 1].startTime <= ps[e].startTime <= ps[|ps| - 1].startTime;
    forall k | 0 <= k < |front| ensures front[k].endTime <= front[i].endTime || front[e].startTime <= front[k].startTime {
      assert ps[k] == front[k];
    }
    assert SecondGap(front, i, e, second);
  }

  /** On whole seconds merging puts any sorted list of valid periods into normal form. */
  lemma {:induction false} MergedNormal(ps: seq<Period>)
    requires Ascending(ps) && AllValid(ps)
    ensures NormalForm(Merged(ps))
  {
    if ps != [] {
      var n := |ps| - 1;
      var front := ps[..n];
      MergedNormal(front);
      if front != [] {
        MergedLast(front, 1);
        var merged := Merged(front);
        var s :| 0 <= s < n && front[s].startTime == merged[|merged| - 1].startTime;
        assert ps[s].startTime <= ps[n].startTime;
        MergeStepNormal(merged, ps[n]);
      }
    }
  }

  lemma MergeStepNormal(merged: seq<Period>, p: Period)
    requires NormalForm(merged) && merged != [] && p.Valid()
    requires merged[|merged| - 1].startTime <= p.startTime
    ensures NormalForm(MergeStep(merged, p))
  {
  }

  lemma EndpointsCovered(ps: seq<Period>, i: nat)
    requires i < |ps| && ps[i].Valid()
    ensures Covered(ps, ps[i].startTime) && Covered(ps, ps[i].endTime)
  {
    assert ps[i].Contains(ps[i].startTime) && ps[i].Contains(ps[i].endTime);
  }

  /** A normal form is determined by the seconds it covers. */
  lemma {:induction false} NormalFormUnique(a: seq<Period>, b: seq<Period>)
    requires NormalForm(a) && NormalForm(b)
    requires forall t :: Covered(a, t) <==> Covered(b, t)
    ensures a == b
  {
    if a != [] {
      EndpointsCovered(a, 0);
      assert Covered(b, a[0].startTime);
      SamePrefix(a, b);
      forall t ensures Covered(a[1..], t) <==> Covered(b[1..], t) {
        CoveredHead(a, t);
        CoveredHead(b, t);
      }
      NormalFormUnique(a[1..], b[1..]);
      assert a == [a[0]] + a[1..] && b == [b[0]] + b[1..];
    } else if b != [] {
      EndpointsCovered(b, 0);
      assert false;
    }
  }

  lemma CoveredHead(ps: seq<Period>, t: int)
    requires NormalForm(ps) && ps != []
    ensures Covered(ps[1..], t) <==> Covered(ps, t) && t > ps[0].endTime
  {
    if Covered(ps[1..], t) {
      var i :| 0 <= i < |ps[1..]| && ps[1..][i].Contains(t);
      assert ps[i + 1].Contains(t);
    }
    if Covered(ps, t) && t > ps[0].endTime {
      var i :| 0 <= i < |ps| && ps[i].Contains(t);
      assert ps[1..][i - 1].Contains(t);
    }
  }

  /** The first period of a normal form starts at its first covered second and ends before the next uncovered one. */
  lemma FirstBounds(ps: seq<Period>, t: int)
    requires NormalForm(ps) && ps != [] && Covered(ps, t)
    ensures ps[0].startTime <= t && (t <= ps[0].endTime + 1 ==> t <= ps[0].endTime)
  {
  }

  lemma FirstReaches(a: seq<Period>, b: seq<Period>)
    requires NormalForm(a) && NormalForm(b) && a != [] && b != []
    requires a[0].startTime == b[0].startTime
    requires forall t :: Covered(b, t) ==> Covered(a, t)
    ensures b[0].endTime <= a[0].endTime
  {
    var t := Min(a[0].endTime + 1, b[0].endTime);
    assert b[0].Contains(t) && Covered(b, t);
    FirstBounds(a, t);
  }

  lemma SamePrefix(a: seq<Period>, b: seq<Period>)
    requires NormalForm(a) && NormalForm(b) && a != [] && b != []
    requires forall t :: Covered(a, t) <==> Covered(b, t)
    ensures a[0] == b[0]
  {
    EndpointsCovered(a, 0);
    EndpointsCovered(b, 0);
    FirstBounds(a, b[0].startTime);
    FirstBounds(b, a[0].startTime);
    FirstReaches(a, b);
    FirstReaches(b, a);
  }

  lemma NextUncovered(ps: seq<Period>, i: nat)
    requires NormalForm(ps) && i < |ps|
    ensures !Covered(ps, ps[i].endTime + 1) && !Covered(ps, ps[i].startTime - 1)
  {
  }

  /** Sorting does not matter: any two sorted lists that cover the same seconds merge to the same list. */
  lemma {:induction false} MergeCanonical(ps: seq<Period>, qs: seq<Period>)
    requires Ascending(ps) && AllValid(ps) && Ascending(qs) && AllValid(qs)
    requires forall t :: Covered(ps, t) <==> Covered(qs, t)
    ensures Merged(ps) == Merged(qs)
  {
    MergedNormal(ps);
    MergedNormal(qs);
    forall t ensures Covered(Merged(ps), t) <==> Covered(Merged(qs), t) {
      MergedCovers(ps, 1, t);
      MergedCovers(qs, 1, t);
    }
    NormalFormUnique(Merged(ps), Merged(qs));
  }

  /** Merging is idempotent: normal forms are its fixed points. */
  lemma {:induction false} MergeFixpoint(ps: seq<Period>)
    requires Ascending(ps) && AllValid(ps)
    ensures Merged(ps) == ps <==> NormalForm(ps)
  {
    MergedNormal(ps);
    if NormalForm(ps) {
      forall t ensures Covered(Merged(ps), t) <==> Covered(ps, t) {
        MergedCovers(ps, 1, t);
      }
      NormalFormUnique(Merged(ps), ps);
    }
  }

  /** A fully covered window lies inside a single period of a normal form. */
  lemma WindowInOnePeriod(ps: seq<Period>, window: Period)
    requires NormalForm(ps) && window.Valid()
    ensures (forall t | window.Contains(t) :: Covered(ps, t)) <==>
            (exists i | 0 <= i < |ps| :: window.Within(ps[i]))
  {
    if forall t | window.Contains(t) :: Covered(ps, t) {
      assert window.Contains(window.startTime);
      var i :| 0 <= i < |ps| && ps[i].Contains(window.startTime);
      NextUncovered(ps, i);
      assert window.Contains(Min(window.endTime, ps[i].endTime + 1));
      assert window.Within(ps[i]);
    }
    if exists i | 0 <= i < |ps| :: window.Within(ps[i]) {
      var i :| 0 <= i < |ps| && window.Within(ps[i]);
      forall t | window.Contains(t) ensures Covered(ps, t) {
        assert ps[i].Contains(t);
      }
    }
  }
}
