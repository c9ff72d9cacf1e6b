/**
 cmd/cloudtrail/time.go, `Merge`, at ticks finer than a second: which merged periods still touch.

 Only neighbours are compared while merging. Two periods a second apart stay separate when others lie in the gap between
 them, none of them reaching across an edge of it.
 */
module MergedGaps {
  import opened Periods

  /** What merging leaves at any granularity: periods in order, no two neighbours exactly a second apart. */
  ghost predicate Spaced(m: seq<Period>, second: int) {
    && AllValid(m)
    && (forall i, j | 0 <= i < j < |m| :: m[i].endTime < m[j].startTime)
    && (forall i | 0 <= i < |m| - 1 :: m[i].endTime + second != m[i + 1].startTime)
  }

  ghost predicate PairwiseApart(m: seq<Period>, second: int) {
    forall i, j | 0 <= i < j < |m| :: !m[i].Overlap(m[j], second)
  }

  lemma {:induction false} MergedSpaced(ps: seq<Period>, second: int)
    requires Ascending(ps) && AllValid(ps) && second >= 1
    ensures Spaced(Merged(ps, second), second)
  {
    if ps != [] {
      var n := |ps| - 1;
      var front := ps[..n];
      MergedSpaced(front, second);
      if front != [] {
        MergedLast(front, second);
        var merged := Merged(front, second);
        var s :| 0 <= s < n && front[s].startTime == merged[|merged| - 1].startTime;
        assert front[s] == ps[s] && ps[s].startTime <= ps[n].startTime;
        StepSpaced(merged, ps[n], second);
      }
    }
  }

  lemma StepSpaced(merged: seq<Period>, p: Period, second: int)
    requires Spaced(merged, second) && merged != [] && p.Valid() && second >= 1
    requires merged[|merged| - 1].startTime <= p.startTime
    ensures Spaced(MergeStep(merged, p, second), second)
  {
    var last := |merged| - 1;
    var step := MergeStep(merged, p, second);
    forall i | 0 <= i < last ensures step[i] == merged[i] && step[i].Valid() && step[i].endTime < merged[last].startTime {
    }
    if merged[last].Overlap(p, second) {
      assert |step| == |merged| && step[last].startTime == merged[last].startTime && step[last].Valid();
    } else {
      assert step == merged + [p] && merged[last].Valid();
    }
  }

  /** Periods of which no neighbours overlap stay as they are. */
  lemma {:induction false} MergedUnchanged(ps: seq<Period>, second: int)
    requires forall i | 0 <= i < |ps| - 1 :: !ps[i].Overlap(ps[i + 1], second)
    ensures Merged(ps, second) == ps
  {
    if ps != [] {
      var n := |ps| - 1;
      MergedUnchanged(ps[..n], second);
      assert ps == ps[..n] + [ps[n]];
    }
  }

  ghost predicate HeldIn(m: seq<Period>, p: Period) {
    exists k | 0 <= k < |m| :: p.Within(m[k])
  }

  ghost predicate StartsAt(ps: seq<Period>, t: int) {
    exists i | 0 <= i < |ps| :: ps[i].startTime == t
  }

  ghost predicate EndsAt(ps: seq<Period>, t: int) {
    exists i | 0 <= i < |ps| :: ps[i].endTime == t
  }

  /** Every merged period starts and ends where some period does. */
  ghost predicate EdgesFrom(m: seq<Period>, ps: seq<Period>) {
    forall k | 0 <= k < |m| :: StartsAt(ps, m[k].startTime) && EndsAt(ps, m[k].endTime)
  }

  ghost predicate AllHeldIn(m: seq<Period>, ps: seq<Period>) {
    forall i | 0 <= i < |ps| :: HeldIn(m, ps[i])
  }

  lemma {:induction false} MergedEdges(ps: seq<Period>, second: int)
    ensures EdgesFrom(Merged(ps, second), ps)
  {
    if ps != [] {
      MergedEdges(ps[..|ps| - 1], second);
      EdgesNext(ps, Merged(ps[..|ps| - 1], second), second);
    }
  }

  lemma {:induction false} MergedHolds(ps: seq<Period>, second: int)
    ensures AllHeldIn(Merged(ps, second), ps)
  {
    if ps != [] {
      MergedHolds(ps[..|ps| - 1], second);
      HeldNext(ps, Merged(ps[..|ps| - 1], second), second);
    }
  }

  lemma EdgesNext(ps: seq<Period>, merged: seq<Period>, second: int)
    requires ps != [] && EdgesFrom(merged, ps[..|ps| - 1])
    ensures EdgesFrom(MergeStep(merged, ps[|ps| - 1], second), ps)
  {
    var front, p := ps[..|ps| - 1], ps[|ps| - 1];
    var step := MergeStep(merged, p, second);
    forall t ensures StartsAt(front, t) ==> StartsAt(ps, t) ensures EndsAt(front, t) ==> EndsAt(ps, t) {
      assert forall i | 0 <= i < |front| :: front[i] == ps[i];
    }
    assert StartsAt(ps, p.startTime) && EndsAt(ps, p.endTime);
  }

  lemma HeldNext(ps: seq<Period>, merged: seq<Period>, second: int)
    requires ps != [] && AllHeldIn(merged, ps[..|ps| - 1])
    ensures AllHeldIn(MergeStep(merged, ps[|ps| - 1], second), ps)
  {
    var front, p := ps[..|ps| - 1], ps[|ps| - 1];
    var step := MergeStep(merged, p, second);
    assert p.Within(step[|step| - 1]);
    forall i | 0 <= i < |front| ensures HeldIn(step, ps[i]) {
      assert front[i] == ps[i] && HeldIn(merged, front[i]);
      var k :| 0 <= k < |merged| && front[i].Within(merged[k]);
      assert front[i].Within(step[k]);
    }
  }

  lemma StepAppend(u: seq<Period>, v: seq<Period>, p: Period, second: int)
    requires v != []
    ensures MergeStep(u + v, p, second) == u + MergeStep(v, p, second)
  {
  }

  /** Merging starts afresh after a gap. */
  lemma {:induction false} MergedSplit(u: seq<Period>, v: seq<Period>, second: int)
    requires u != [] && v != []
    requires var m := Merged(u, second); m != [] && !m[|m| - 1].Overlap(v[0], second)
    ensures Merged(u + v, second) == Merged(u, second) + Merged(v, second)
    ensures Merged(v, second) != []
    decreases |v|
  {
    var n := |v| - 1;
    assert (u + v)[..|u + v| - 1] == u + v[..n];
    assert (u + v)[|u + v| - 1] == v[n];
    if n == 0 {
      assert v[..n] == [] && u + v[..n] == u;
    } else {
      MergedSplit(u, v[..n], second);
      StepAppend(Merged(u, second), Merged(v[..n], second), v[n], second);
    }
  }

  lemma {:induction false} MergedFirst(ps: seq<Period>, second: int)
    requires ps != [] && Ascending(ps)
    ensures Merged(ps, second) != [] && Merged(ps, second)[0].startTime == ps[0].startTime
    ensures forall k | 0 <= k < |Merged(ps, second)| :: ps[0].startTime <= Merged(ps, second)[k].startTime
  {
    var n := |ps| - 1;
    if n > 0 {
      MergedFirst(ps[..n], second);
    } else {
      assert ps[..n] == [];
    }
  }

  // ----- Which merged periods touch -----

  /** Nothing reaches across either edge of the gap from lo to hi. */
  ghost predicate NoneAcross(ps: seq<Period>, lo: int, hi: int) {
    forall k | 0 <= k < |ps| ::
      && (ps[k].endTime <= lo || lo < ps[k].startTime)
      && (ps[k].endTime < hi || hi <= ps[k].startTime)
  }

  /** A gap of exactly one second from the end of a to the start of b, with p strictly inside. */
  ghost predicate PocketAt(ps: seq<Period>, a: nat, p: nat, b: nat, second: int)
    requires a < |ps| && p < |ps| && b < |ps|
  {
    && ps[b].startTime == ps[a].endTime + second
    && ps[a].endTime < ps[p].startTime && ps[p].endTime < ps[b].startTime
    && NoneAcross(ps, ps[a].endTime, ps[b].startTime)
  }

  ghost predicate Pocket(ps: seq<Period>, second: int) {
    exists a: nat, p: nat, b: nat | a < |ps| && p < |ps| && b < |ps| :: PocketAt(ps, a, p, b, second)
  }

  /** A merged period holds what is in it entirely: whatever reaches into it ends and starts within it. */
  lemma NoneAcrossMerged(ps: seq<Period>, m: seq<Period>, second: int, i: nat, j: nat)
    requires AllValid(ps) && Spaced(m, second) && AllHeldIn(m, ps) && i < j < |m|
    ensures NoneAcross(ps, m[i].endTime, m[j].startTime)
  {
    forall k | 0 <= k < |ps|
      ensures ps[k].endTime <= m[i].endTime || m[i].endTime < ps[k].startTime
      ensures ps[k].endTime < m[j].startTime || m[j].startTime <= ps[k].startTime
    {
      assert HeldIn(m, ps[k]);
      var h :| 0 <= h < |m| && ps[k].Within(m[h]);
      assert h < i || h == i || i < h;
      assert h < j || h == j || j < h;
    }
  }

  lemma NotNeighbours(m: seq<Period>, second: int, i: nat, j: nat)
    requires Spaced(m, second) && second >= 1 && i < j < |m| && m[i].Overlap(m[j], second)
    ensures m[i].endTime + second == m[j].startTime && i + 1 < j
    ensures m[i].endTime < m[i + 1].startTime && m[i + 1].endTime < m[j].startTime
  {
  }

  lemma PocketAround(ps: seq<Period>, lo: int, inner: Period, hi: int, second: int)
    requires EndsAt(ps, lo) && StartsAt(ps, inner.startTime) && StartsAt(ps, hi) && NoneAcross(ps, lo, hi)
    requires hi == lo + second && lo < inner.startTime <= inner.endTime < hi
    ensures Pocket(ps, second)
  {
    var a :| 0 <= a < |ps| && ps[a].endTime == lo;
    var b :| 0 <= b < |ps| && ps[b].startTime == hi;
    var p :| 0 <= p < |ps| && ps[p].startTime == inner.startTime;
    assert PocketAt(ps, a, p, b, second);
  }

  lemma {:induction false} MergedEdge(ps: seq<Period>, second: int, k: nat)
    requires Ascending(ps) && AllValid(ps) && second >= 1 && k < |Merged(ps, second)|
    ensures StartsAt(ps, Merged(ps, second)[k].startTime) && EndsAt(ps, Merged(ps, second)[k].endTime)
  {
    MergedEdges(ps, second);
  }

  lemma {:induction false} MergedNoneAcross(ps: seq<Period>, second: int, i: nat, j: nat)
    requires Ascending(ps) && AllValid(ps) && second >= 1 && i < j < |Merged(ps, second)|
    ensures NoneAcross(ps, Merged(ps, second)[i].endTime, Merged(ps, second)[j].startTime)
  {
    MergedSpaced(ps, second);
    MergedHolds(ps, second);
    NoneAcrossMerged(ps, Merged(ps, second), second, i, j);
  }

  lemma {:induction false} TouchingMakesPocket(ps: seq<Period>, second: int, i: nat, j: nat)
    requires Ascending(ps) && AllValid(ps) && second >= 1
    requires i < j < |Merged(ps, second)| && Merged(ps, second)[i].Overlap(Merged(ps, second)[j], second)
    ensures Pocket(ps, second)
  {
    var m := Merged(ps, second);
    assert m[i].endTime + second == m[j].startTime && i + 1 < j && m[i + 1].Valid()
      && m[i].endTime < m[i + 1].startTime && m[i + 1].endTime < m[j].startTime by {
      MergedSpaced(ps, second);
      NotNeighbours(m, second, i, j);
    }
    MergedNoneAcross(ps, second, i, j);
    MergedEdge(ps, second, i);
    MergedEdge(ps, second, i + 1);
    MergedEdge(ps, second, j);
    PocketAround(ps, m[i].endTime, m[i + 1], m[j].startTime, second);
  }

  /** The first period of a sorted list that starts after lo. */
  lemma {:induction false} CutAfter(ps: seq<Period>, lo: int) returns (n: nat)
    requires Ascending(ps)
    ensures n <= |ps|
    ensures forall k | 0 <= k < n :: ps[k].startTime <= lo
    ensures forall k | n <= k < |ps| :: lo < ps[k].startTime
  {
    n := 0;
    while n < |ps| && ps[n].startTime <= lo
      invariant n <= |ps|
      invariant forall k | 0 <= k < n :: ps[k].startTime <= lo
    {
      n := n + 1;
    }
  }

  /** Three runs of periods, each out of reach of its neighbour, of which the outer two are a second apart. */
  lemma {:induction false} ThreeParts(u: seq<Period>, v: seq<Period>, w: seq<Period>, second: int)
    requires u != [] && v != [] && w != [] && second >= 1
    requires var mu, mv := Merged(u, second), Merged(v, second);
      && mu != [] && mv != []
      && mu[|mu| - 1].endTime < v[0].startTime < w[0].startTime == mu[|mu| - 1].endTime + second
      && mu[|mu| - 1].endTime < mv[|mv| - 1].endTime < w[0].startTime
      && mu[|mu| - 1].Valid() && v[0].Valid() && mv[|mv| - 1].Valid() && w[0].Valid()
    ensures Merged(u + (v + w), second) == Merged(u, second) + (Merged(v, second) + Merged(w, second))
    ensures Merged(w, second) != []
  {
    var mu, mv := Merged(u, second), Merged(v, second);
    assert !mv[|mv| - 1].Overlap(w[0], second);
    MergedSplit(v, w, second);
    assert (v + w)[0] == v[0];
    assert !mu[|mu| - 1].Overlap(v[0], second);
    MergedSplit(u, v + w, second);
  }

  lemma OuterTouch(mu: seq<Period>, mv: seq<Period>, mw: seq<Period>, second: int)
    requires mu != [] && mv != [] && mw != [] && mu[|mu| - 1].endTime + second == mw[0].startTime
    ensures !PairwiseApart(mu + (mv + mw), second)
  {
    var m := mu + (mv + mw);
    var i, j := |mu| - 1, |mu| + |mv|;
    assert m[i] == mu[i] && m[j] == mw[0];
    assert m[i].Overlap(m[j], second);
  }

  lemma {:induction false} InnerEnd(v: seq<Period>, lo: int, hi: int, second: int)
    requires v != [] && Ascending(v) && AllValid(v) && second >= 1
    requires forall k | 0 <= k < |v| :: lo < v[k].startTime && v[k].endTime < hi
    ensures var m := Merged(v, second); m != [] && m[|m| - 1].Valid() && lo < m[|m| - 1].endTime < hi
  {
    MergedLast(v, second);
    MergedSpaced(v, second);
  }

  lemma {:induction false} PartsMakeTouching(u: seq<Period>, v: seq<Period>, w: seq<Period>, lo: int, hi: int, a: nat,
                                             second: int)
    requires Ascending(u) && Ascending(v) && Ascending(w) && AllValid(u) && AllValid(v) && AllValid(w)
    requires second >= 1 && hi == lo + second && a < |u| && v != [] && w != []
    requires u[a].endTime == lo && forall k | 0 <= k < |u| :: u[k].endTime <= lo
    requires forall k | 0 <= k < |v| :: lo < v[k].startTime && v[k].endTime < hi
    requires w[0].startTime == hi
    ensures !PairwiseApart(Merged(u + (v + w), second), second)
  {
    LastEnd(u, lo, a, second);
    InnerEnd(v, lo, hi, second);
    assert v[0].Valid() && w[0].Valid();
    ThreeParts(u, v, w, second);
    MergedFirst(w, second);
    OuterTouch(Merged(u, second), Merged(v, second), Merged(w, second), second);
  }

  lemma {:induction false} CutsMakeTouching(ps: seq<Period>, lo: int, hi: int, a: nat, x: nat, y: nat, second: int)
    requires Ascending(ps) && AllValid(ps) && second >= 1 && hi == lo + second
    requires a < x < y < |ps| && ps[a].endTime == lo && ps[y].startTime == hi
    requires forall k | 0 <= k < x :: ps[k].endTime <= lo
    requires forall k | x <= k < y :: lo < ps[k].startTime && ps[k].endTime < hi
    ensures !PairwiseApart(Merged(ps, second), second)
  {
    var u, v, w := ps[..x], ps[x..y], ps[y..];
    assert ps == u + (v + w);
    PartsMakeTouching(u, v, w, lo, hi, a, second);
  }

  lemma {:induction false} PocketMakesTouching(ps: seq<Period>, a: nat, p: nat, b: nat, second: int)
    requires Ascending(ps) && AllValid(ps) && second >= 1
    requires a < |ps| && p < |ps| && b < |ps| && PocketAt(ps, a, p, b, second)
    ensures !PairwiseApart(Merged(ps, second), second)
  {
    var lo, hi := ps[a].endTime, ps[b].startTime;
    var x := CutAfter(ps, lo);
    var y := CutAfter(ps, hi - 1);
    CutsMakeTouching(ps, lo, hi, a, x, y, second);
  }

  lemma {:induction false} LastEnd(u: seq<Period>, lo: int, a: nat, second: int)
    requires a < |u| && Ascending(u) && AllValid(u) && second >= 1
    requires u[a].endTime == lo && forall k | 0 <= k < |u| :: u[k].endTime <= lo
    ensures var m := Merged(u, second); m != [] && m[|m| - 1].endTime == lo && m[|m| - 1].Valid()
  {
    MergedLast(u, second);
    MergedSpaced(u, second);
  }

  /**
   At any tick granularity, merging sorted valid periods leaves no two that touch if and only if there is no gap of exactly
   one second that holds another period strictly inside while nothing reaches across its edges.
   */
  lemma {:induction false} MergedApartIff(ps: seq<Period>, second: int)
    requires Ascending(ps) && AllValid(ps) && second >= 1
    ensures PairwiseApart(Merged(ps, second), second) <==> !Pocket(ps, second)
  {
    var m := Merged(ps, second);
    if !PairwiseApart(m, second) {
      var i, j :| 0 <= i < j < |m| && m[i].Overlap(m[j], second);
      TouchingMakesPocket(ps, second, i, j);
    }
    if Pocket(ps, second) {
      var a: nat, p: nat, b: nat :| a < |ps| && p < |ps| && b < |ps| && PocketAt(ps, a, p, b, second);
      PocketMakesTouching(ps, a, p, b, second);
    }
  }

  /** With ten ticks to the second the periods 0-5, 8-12 and 15-20 stay apart although the first and the last touch. */
  lemma TouchingExample()
    ensures !PairwiseApart(Merged([Period(0, 5), Period(8, 12), Period(15, 20)], 10), 10)
  {
    var ps := [Period(0, 5), Period(8, 12), Period(15, 20)];
    assert PocketAt(ps, 0, 1, 2, 10);
    MergedApartIff(ps, 10);
  }
}
