/**
 What one call of getPages does to the cache and what it prints, when the API answers faithfully from a fixed
 trail of events.
 */
module PageTheorems {
  import opened Wrappers
  import opened Periods
  import opened MissingPeriods
  import opened Events
  import opened Filters
  import opened Selection
  import opened EventCache
  import opened Sorting
  import opened WriteEvents

  // ----- The environment -----

  /** The events of one region's trail: each has a time, and details that name the region. */
  ghost predicate TrailOf(trail: multiset<Event>, region: string) {
    forall e | e in trail :: e.time.Some? && e.details.Some? && e.details.value.eventRegion == region
  }

  /** How often the pages hold an event, all of them together. */
  ghost function CopiesOn(pages: seq<EventResult>, e: Event): nat {
    if pages == [] then 0
    else
      CopiesOn(pages[..|pages| - 1], e)
      + match pages[|pages| - 1] case Page(events) => Count(events, e) case PageError(_) => 0
  }

  ghost predicate NotNewer(later: Event, earlier: Event) {
    later.time.Some? ==> earlier.time.Some? && later.time.value <= earlier.time.value
  }

  /** No event is newer than one before it, on the same page or on an earlier one. */
  ghost predicate PagesInOrder(pages: seq<EventResult>) {
    forall i, j, k, l
      | 0 <= i <= k < |pages| && pages[i].Page? && pages[k].Page?
        && 0 <= j < |pages[i].events| && 0 <= l < |pages[k].events| && (i < k || j < l)
      :: NotNewer(pages[k].events[l], pages[i].events[j])
  }

  /** The pages deliver exactly the trail's events of the period, newest first. */
  ghost predicate Answers(pages: seq<EventResult>, p: Period, trail: multiset<Event>) {
    && PagesInOrder(pages)
    && (forall e: Event :: CopiesOn(pages, e) ==
          if e.time.Some? && p.startTime <= e.time.value <= p.endTime then trail[e] else 0)
  }

  lemma {:induction false} FetchedCopies(pages: seq<EventResult>, e: Event)
    ensures Count(FetchedEvents(pages), e) == CopiesOn(pages, e)
  {
    if pages != [] {
      var front, last := pages[..|pages| - 1], pages[|pages| - 1];
      FetchedCopies(front, e);
      if last.Page? {
        CountConcat(FetchedEvents(front), last.events, e);
      }
    }
  }

  lemma {:induction false} FetchedFrom(pages: seq<EventResult>, e: Event) returns (i: nat, j: nat)
    requires e in FetchedEvents(pages)
    ensures i < |pages| && pages[i].Page? && j < |pages[i].events| && pages[i].events[j] == e
  {
    var front, last := pages[..|pages| - 1], pages[|pages| - 1];
    if e in FetchedEvents(front) {
      i, j := FetchedFrom(front, e);
    } else {
      i := |pages| - 1;
      j :| 0 <= j < |last.events| && last.events[j] == e;
    }
  }

  lemma {:induction false} FetchedInOrder(pages: seq<EventResult>)
    requires PagesInOrder(pages)
    ensures NewestFirst(FetchedEvents(pages))
  {
    if pages != [] && pages[|pages| - 1].PageError? {
      FetchedInOrder(pages[..|pages| - 1]);
    } else if pages != [] {
      var n := |pages| - 1;
      var front, r := FetchedEvents(pages[..n]), FetchedEvents(pages);
      FetchedInOrder(pages[..n]);
      forall a, b | 0 <= a < b < |r| ensures PairInOrder(r, StoredBefore, a, b) {
        if b < |front| {
          assert PairInOrder(front, StoredBefore, a, b);
        } else if a < |front| {
          var i, j := FetchedFrom(pages[..n], front[a]);
          assert NotNewer(pages[n].events[b - |front|], pages[i].events[j]);
        } else {
          assert NotNewer(pages[n].events[b - |front|], pages[n].events[a - |front|]);
        }
      }
    }
  }

  /** What getPages gathers from such an answer, however it is split into pages. */
  lemma {:induction false} AnswersMean(pages: seq<EventResult>, p: Period, trail: multiset<Event>)
    requires Answers(pages, p, trail)
    ensures NewestFirst(FetchedEvents(pages))
    ensures forall e: Event :: Count(FetchedEvents(pages), e) == if e.During(p) then trail[e] else 0
  {
    FetchedInOrder(pages);
    forall e: Event ensures Count(FetchedEvents(pages), e) == if e.During(p) then trail[e] else 0 {
      FetchedCopies(pages, e);
    }
  }

  /** Every answer to one of the given questions is complete: no event is missing or comes late. */
  ghost predicate Faithful(lookup: Lookup, trail: multiset<Event>, asked: seq<Period>) {
    forall i | 0 <= i < |asked| :: Answers(Pages(lookup, asked[i]), asked[i], trail)
  }

  // ----- The missing periods in the order in which they are fetched -----

  /** Valid periods inside the request, latest first, apart from each other; all but the earliest start right after a cached second. */
  ghost predicate Pending(c: seq<Period>, req: Period, md: seq<Period>) {
    && (forall i | 0 <= i < |md| :: md[i].Valid() && md[i].Within(req))
    && (forall i, j | 0 <= i < j < |md| :: md[j].endTime + 1 < md[i].startTime)
    && (forall i | 0 <= i < |md| - 1 :: Covered(c, md[i].startTime - 1))
  }

  function Reverse<T>(s: seq<T>): (r: seq<T>)
    ensures |r| == |s|
    ensures forall i | 0 <= i < |s| :: r[i] == s[|s| - 1 - i]
  {
    if s == [] then [] else [s[|s| - 1]] + Reverse(s[..|s| - 1])
  }

  lemma {:induction false} ReversePermutes<T(!new)>(s: seq<T>, x: T)
    ensures Count(Reverse(s), x) == Count(s, x)
  {
    if s != [] {
      var front, last := s[..|s| - 1], s[|s| - 1];
      ReversePermutes(front, x);
      CountConcat([last], Reverse(front), x);
      assert Count([last], x) == if last == x then 1 else 0;
    }
  }

  ghost predicate StrictlyDescending(ps: seq<Period>) {
    forall i, j | 0 <= i < j < |ps| :: ps[j].startTime < ps[i].startTime
  }

  lemma SameFirst(a: seq<Period>, b: seq<Period>)
    requires StrictlyDescending(a) && a != [] && SortOf(b, a, StartsAfter)
    ensures b != [] && b[0] == a[0]
  {
    PermutationContains(b, a, a[0]);
    var i :| 0 <= i < |b| && b[i] == a[0];
    PermutationContains(b, a, b[0]);
    var k :| 0 <= k < |a| && a[k] == b[0];
    assert i > 0 ==> PairInOrder(b, StartsAfter, 0, i);
    assert a[k].startTime <= a[0].startTime;
  }

  lemma SortedTail(a: seq<Period>, b: seq<Period>)
    requires a != [] && b != [] && a[0] == b[0] && SortOf(b, a, StartsAfter)
    ensures SortOf(b[1..], a[1..], StartsAfter)
  {
    assert a == [a[0]] + a[1..] && b == [b[0]] + b[1..];
    forall p ensures Count(b[1..], p) == Count(a[1..], p) {
      CountConcat([a[0]], a[1..], p);
      CountConcat([b[0]], b[1..], p);
    }
    forall x, y | 0 <= x < y < |b[1..]| ensures PairInOrder(b[1..], StartsAfter, x, y) {
      assert PairInOrder(b, StartsAfter, x + 1, y + 1);
    }
  }

  /** Any sort of periods with distinct starts yields the same list. */
  lemma {:induction false} StrictSortUnique(a: seq<Period>, b: seq<Period>)
    requires StrictlyDescending(a) && SortOf(b, a, StartsAfter)
    ensures a == b
  {
    if a == [] {
      if b != [] {
        PermutationContains(b, a, b[0]);
        assert false;
      }
    } else {
      SameFirst(a, b);
      SortedTail(a, b);
      StrictSortUnique(a[1..], b[1..]);
      assert a == [a[0]] + a[1..] && b == [b[0]] + b[1..];
    }
  }

  lemma {:induction false} ReverseCovers(ps: seq<Period>)
    ensures Permutation(Reverse(ps), ps)
    ensures forall t :: Covered(Reverse(ps), t) <==> Covered(ps, t)
  {
    forall p ensures Count(Reverse(ps), p) == Count(ps, p) {
      ReversePermutes(ps, p);
    }
    PermutationCovers(ps, Reverse(ps));
    PermutationCovers(Reverse(ps), ps);
  }

  /** Computed afresh, the missing periods are exactly what DiffMultiple returns, reversed. */
  lemma FreshPending(c: seq<Period>, req: Period, md: seq<Period>)
    requires NormalForm(c) && req.Valid() && SortOf(md, Missing(req, c), StartsAfter)
    ensures md == Reverse(Missing(req, c))
    ensures Pending(c, req, md)
  {
    var m := Missing(req, c);
    DiffMultipleShape(req, c);
    ReverseCovers(m);
    StrictSortUnique(Reverse(m), md);
  }

  /** What a call works on: the cache it reads and the periods left by an earlier call. */
  ghost predicate Ready(before: CacheData, pending: seq<Period>, req: Period) {
    NormalForm(before.period) && req.Valid() && Pending(before.period, req, pending)
  }

  lemma OrderPending(before: CacheData, pending: seq<Period>, lookup: Lookup, f: WriteEventFilters,
                     region: string, req: Period, out: PageOutcome)
    requires Ready(before, pending, req) && PageRun(before, pending, lookup, f, region, req, out)
    ensures Pending(before.period, req, out.order)
    ensures forall t :: Covered(out.order, t) <==> Covered(ToFetch(before.period, pending, req), t)
    ensures pending != [] ==> out.order == pending
    ensures out.order == [] <==> ToFetch(before.period, pending, req) == []
  {
    if pending == [] {
      FreshPending(before.period, req, out.order);
      ReverseCovers(Missing(req, before.period));
    } else {
      StrictSortUnique(pending, out.order);
    }
  }

  // ----- When a call comes to its end -----

  /** Every answer to these questions consists of pages, none of them an error. */
  ghost predicate AllArrive(lookup: Lookup, asked: seq<Period>) {
    forall p, j | p in asked && 0 <= j < |Pages(lookup, p)| :: Pages(lookup, p)[j].Page?
  }

  lemma AllArriveIff(lookup: Lookup, asked: seq<Period>)
    ensures AllArrive(lookup, asked) <==> NoneFails(lookup, asked, |asked|)
  {
    if !AllArrive(lookup, asked) {
      var p, j :| p in asked && 0 <= j < |Pages(lookup, p)| && !Pages(lookup, p)[j].Page?;
      var i :| 0 <= i < |asked| && asked[i] == p;
      assert Fails(Pages(lookup, asked[i]));
    }
  }

  lemma AllArriveSorted(lookup: Lookup, md: seq<Period>, order: seq<Period>)
    requires Permutation(order, md)
    ensures AllArrive(lookup, md) <==> AllArrive(lookup, order)
  {
    forall p ensures p in order <==> p in md {
      PermutationContains(order, md, p);
    }
  }

  /** A call comes to its end if and only if it is a full hit or no answer to what it has to ask for holds an error. */
  lemma EndsIff(before: CacheData, pending: seq<Period>, lookup: Lookup, f: WriteEventFilters,
                region: string, req: Period, r: PageResult)
    requires NormalForm(before.period) && req.Valid() && PageCall(before, pending, lookup, f, region, req, r)
    ensures r.Ended? <==>
      || (pending == [] && ContainedInOne(req, before.period))
      || AllArrive(lookup, if pending == [] then Missing(req, before.period) else pending)
  {
    FullOverlapIff(req, before.period);
    var order := if r.Ended? then r.out.order else r.stop.order;
    AllArriveIff(lookup, order);
    AllArriveSorted(lookup, ToFetch(before.period, pending, req), order);
  }

  // ----- What is saved -----

  lemma {:induction false} RecordedShape(md: seq<Period>, n: nat)
    requires n <= |md|
    ensures |RecordedUpTo(md, n)| == n
    ensures forall i | 0 <= i < n :: RecordedUpTo(md, n)[i] == Recorded(md, i)
  {
    if n > 0 {
      RecordedShape(md, n - 1);
    }
  }

  /** Backdating claims no new second: the second it adds is cached already. */
  lemma {:induction false} BackdatingClaimsNothing(c: seq<Period>, req: Period, md: seq<Period>, t: int)
    requires Pending(c, req, md)
    ensures AllValid(RecordedUpTo(md, |md|))
    ensures Covered(c, t) || Covered(RecordedUpTo(md, |md|), t) <==> Covered(c, t) || Covered(md, t)
  {
    var r := RecordedUpTo(md, |md|);
    RecordedShape(md, |md|);
    if Covered(r, t) {
      var i :| 0 <= i < |r| && r[i].Contains(t);
      assert md[i].Contains(t) || (i < |md| - 1 && t == md[i].startTime - 1);
    }
    if Covered(md, t) {
      var i :| 0 <= i < |md| && md[i].Contains(t);
      assert r[i].Contains(t);
    }
  }

  /** The pieces are disjoint: an event falls into at most one of them. */
  lemma DuringNext(c: seq<Period>, req: Period, md: seq<Period>, n: nat, e: Event)
    requires Pending(c, req, md) && n < |md|
    ensures e.DuringAny(md[..n + 1]) <==> e.DuringAny(md[..n]) || e.During(md[n])
    ensures !(e.DuringAny(md[..n]) && e.During(md[n]))
  {
    assert md[..n + 1] == md[..n] + [md[n]];
    if e.time.Some? {
      CoveredAppend(md[..n], md[n], e.time.value);
    }
  }

  lemma {:induction false} FetchedCount(c: seq<Period>, req: Period, md: seq<Period>, n: nat, lookup: Lookup,
                                        trail: multiset<Event>, e: Event)
    requires Pending(c, req, md) && Faithful(lookup, trail, md) && n <= |md|
    ensures Count(FetchedUpTo(lookup, md, n), e) == if e.DuringAny(md[..n]) then trail[e] else 0
  {
    if n > 0 {
      FetchedCount(c, req, md, n - 1, lookup, trail, e);
      AnswersMean(Pages(lookup, md[n - 1]), md[n - 1], trail);
      CountConcat(FetchedUpTo(lookup, md, n - 1), FetchedEvents(Pages(lookup, md[n - 1])), e);
      DuringNext(c, req, md, n - 1, e);
    }
  }

  /** What one call adds to the cache: the seconds asked for, and every trail event in them once. */
  ghost predicate Grows(before: CacheData, asked: seq<Period>, trail: multiset<Event>, after: CacheData) {
    && NormalForm(after.period)
    && (forall t :: Covered(after.period, t) <==> Covered(before.period, t) || Covered(asked, t))
    && (forall e: Event :: Count(after.event, e) ==
          Count(before.event, e) + (if e.DuringAny(asked) then trail[e] else 0))
    && NewestFirst(after.event)
  }

  lemma {:induction false} SavedGrows(before: CacheData, req: Period, md: seq<Period>, lookup: Lookup, after: CacheData,
                                      trail: multiset<Event>)
    requires NormalForm(before.period) && Pending(before.period, req, md) && Faithful(lookup, trail, md)
    requires Saved(before, CacheData(RecordedUpTo(md, |md|), FetchedUpTo(lookup, md, |md|)), after)
    ensures Grows(before, md, trail, after)
    ensures Pending(after.period, req, md)
  {
    var added := CacheData(RecordedUpTo(md, |md|), FetchedUpTo(lookup, md, |md|));
    forall t ensures Covered(after.period, t) <==> Covered(before.period, t) || Covered(md, t) {
      BackdatingClaimsNothing(before.period, req, md, t);
      SavedCovers(before, added, after, t);
    }
    BackdatingClaimsNothing(before.period, req, md, 0);
    SavedCovers(before, added, after, 0);
    forall e: Event ensures Count(after.event, e) == Count(before.event, e) + (if e.DuringAny(md) then trail[e] else 0) {
      SavedCount(before, added, after, e);
      assert md[..|md|] == md;
      FetchedCount(before.period, req, md, |md|, lookup, trail, e);
    }
    SavedNewestFirst(before, added, after);
  }

  /** Every call, whether a hit, a miss or a continuation, grows the cache by exactly what it asked for. */
  lemma PageGrows(before: CacheData, pending: seq<Period>, lookup: Lookup, f: WriteEventFilters,
                  region: string, req: Period, out: PageOutcome, trail: multiset<Event>)
    requires Ready(before, pending, req) && Faithful(lookup, trail, out.asked)
    requires PageRun(before, pending, lookup, f, region, req, out)
    ensures Grows(before, out.asked, trail, out.cache)
    ensures out.missing == out.asked && Pending(out.cache.period, req, out.missing)
  {
    OrderPending(before, pending, lookup, f, region, req, out);
    assert RecordedUpTo([], 0) == [] && FetchedUpTo(lookup, [], 0) == [];
    SavedGrows(before, req, out.asked, lookup, out.cache, trail);
  }

  lemma SavedNewestFirst(before: CacheData, added: CacheData, after: CacheData)
    requires Saved(before, added, after)
    ensures NewestFirst(after.event)
  {
  }

  // ----- What is printed -----

  /** How often an event is printed from the cache by iteration i, if the cache yields it k times. */
  ghost function CachedShare(req: Period, md: seq<Period>, i: nat, e: Event, k: nat): nat
    requires i < |md|
  {
    (if i == 0 && Head(req, md).Some? && e.During(Head(req, md).value) then k else 0)
    + (if e.During(Between(req, md, i)) then k else 0)
  }

  ghost function CachedShares(req: Period, md: seq<Period>, n: nat, e: Event, k: nat): nat
    requires n <= |md|
  {
    if n == 0 then 0 else CachedShares(req, md, n - 1, e, k) + CachedShare(req, md, n - 1, e, k)
  }

  lemma {:induction false} NothingCached(req: Period, md: seq<Period>, n: nat, e: Event)
    requires n <= |md|
    ensures CachedShares(req, md, n, e, 0) == 0
  {
    if n > 0 {
      NothingCached(req, md, n - 1, e);
    }
  }

  /** Every event of the request outside the missing periods lies in exactly one of the windows printed from the cache. */
  lemma {:induction false} WindowsOnce(c: seq<Period>, req: Period, md: seq<Period>, n: nat, e: Event, k: nat)
    requires Pending(c, req, md) && 0 < n <= |md| && e.During(req) && !e.DuringAny(md)
    ensures CachedShares(req, md, n, e, k) == if n == |md| || e.time.value > md[n].endTime then k else 0
  {
    var t := e.time.value;
    assert !md[n - 1].Contains(t);
    if n < |md| {
      assert !md[n].Contains(t);
    }
    if n == 1 {
      assert CachedShares(req, md, 0, e, k) == 0;
    } else {
      WindowsOnce(c, req, md, n - 1, e, k);
    }
  }

  /** How often an asked-for second is printed from the cache: where a window shares an edge with a missing period. */
  ghost function Reprinted(req: Period, md: seq<Period>, t: int, k: nat): nat
    requires md != []
  {
    (if Head(req, md).Some? && t == md[0].endTime then k else 0) + (if t == md[|md| - 1].startTime then k else 0)
  }

  lemma {:induction false} AskedShares(c: seq<Period>, req: Period, md: seq<Period>, n: nat, e: Event, k: nat)
    requires Pending(c, req, md) && 0 < n <= |md| && e.DuringAny(md)
    ensures CachedShares(req, md, n, e, k) ==
      if n == |md| then Reprinted(req, md, e.time.value, k)
      else if Head(req, md).Some? && e.time.value == md[0].endTime then k else 0
  {
    var t := e.time.value;
    var j :| 0 <= j < |md| && md[j].Contains(t);
    assert md[j].Within(req);
    assert CachedShares(req, md, n, e, k) == CachedShares(req, md, n - 1, e, k) + CachedShare(req, md, n - 1, e, k);
    BetweenEdge(c, req, md, n - 1, j, t);
    if n == 1 {
      assert CachedShares(req, md, 0, e, k) == 0;
      if Head(req, md).Some? && j > 0 {
        assert md[j].endTime < md[0].startTime;
      }
    } else {
      AskedShares(c, req, md, n - 1, e, k);
    }
  }

  /** A missing period meets the windows after it at most at the start of the earliest one. */
  lemma BetweenEdge(c: seq<Period>, req: Period, md: seq<Period>, i: nat, j: nat, t: int)
    requires Pending(c, req, md) && i < |md| && j < |md| && md[j].Contains(t)
    ensures Between(req, md, i).Contains(t) <==> i == |md| - 1 && t == md[i].startTime
  {
    assert md[j].Within(req);
    if i < |md| - 1 {
      assert j < i + 1 || j == i + 1 || i + 1 < j;
      assert j < i || j == i || i < j;
    } else {
      assert j < i || j == i;
    }
  }

  lemma {:induction false} PrintHeadCount(f: WriteEventFilters, req: Period, cached: seq<Event>, md: seq<Period>,
                                          e: Event)
    requires f.Valid() && md != []
    ensures Count(PrintHead(f, req, cached, md), e) ==
      if Wanted(f, e) && Head(req, md).Some? && e.During(Head(req, md).value) then Count(cached, e) else 0
  {
    if Head(req, md).Some? {
      FilteredCount(f, Window(cached, Head(req, md).value), e);
      WindowCount(cached, Head(req, md).value, e);
    }
  }

  /** Iteration i prints an event that passes the filters once per cached copy in its windows and once per copy fetched. */
  ghost predicate SegmentCounted(f: WriteEventFilters, req: Period, cached: seq<Event>, lookup: Lookup, md: seq<Period>,
                                 i: nat, copies: nat, e: Event, keep: bool)
    requires i < |md|
  {
    Count(Segment(f, req, cached, lookup, md, i), e) ==
      if keep then CachedShare(req, md, i, e, Count(cached, e)) + (if e.During(md[i]) then copies else 0)
      else 0
  }

  lemma {:induction false} SegmentCount(f: WriteEventFilters, req: Period, cached: seq<Event>, lookup: Lookup,
                                        md: seq<Period>, i: nat, trail: multiset<Event>, e: Event)
    requires f.Valid() && i < |md| && Answers(Pages(lookup, md[i]), md[i], trail)
    ensures SegmentCounted(f, req, cached, lookup, md, i, trail[e], e, Wanted(f, e))
  {
    var head := if i == 0 then PrintHead(f, req, cached, md) else [];
    var fetched := Filtered(f, FetchedEvents(Pages(lookup, md[i])));
    var between := Filtered(f, Window(cached, Between(req, md, i)));
    AnswersMean(Pages(lookup, md[i]), md[i], trail);
    CountConcat(head + fetched, between, e);
    CountConcat(head, fetched, e);
    PrintHeadCount(f, req, cached, md, e);
    FilteredCount(f, FetchedEvents(Pages(lookup, md[i])), e);
    FilteredCount(f, Window(cached, Between(req, md, i)), e);
    WindowCount(cached, Between(req, md, i), e);
  }

  /** How often an event is fetched in the first n iterations, if the trail holds it k times. */
  ghost function FetchedShares(md: seq<Period>, n: nat, e: Event, k: nat): nat
    requires n <= |md|
  {
    if n == 0 then 0 else FetchedShares(md, n - 1, e, k) + (if e.During(md[n - 1]) then k else 0)
  }

  lemma {:induction false} FetchedOnce(c: seq<Period>, req: Period, md: seq<Period>, n: nat, e: Event, k: nat)
    requires Pending(c, req, md) && n <= |md|
    ensures FetchedShares(md, n, e, k) == if e.DuringAny(md[..n]) then k else 0
  {
    if n > 0 {
      FetchedOnce(c, req, md, n - 1, e, k);
      DuringNext(c, req, md, n - 1, e);
    }
  }

  ghost predicate CountedUpTo(f: WriteEventFilters, req: Period, cached: seq<Event>, lookup: Lookup, md: seq<Period>,
                              n: nat, copies: nat, e: Event, keep: bool)
    requires n <= |md|
  {
    Count(PrintedUpTo(f, req, cached, lookup, md, n), e) ==
      if keep then CachedShares(req, md, n, e, Count(cached, e)) + FetchedShares(md, n, e, copies)
      else 0
  }

  lemma {:induction false} SegmentsAddUp(f: WriteEventFilters, req: Period, cached: seq<Event>, lookup: Lookup,
                                         md: seq<Period>, n: nat, copies: nat, e: Event, keep: bool)
    requires n <= |md|
    requires forall i | 0 <= i < n :: SegmentCounted(f, req, cached, lookup, md, i, copies, e, keep)
    ensures CountedUpTo(f, req, cached, lookup, md, n, copies, e, keep)
  {
    if n > 0 {
      SegmentsAddUp(f, req, cached, lookup, md, n - 1, copies, e, keep);
      assert SegmentCounted(f, req, cached, lookup, md, n - 1, copies, e, keep);
      CountConcat(PrintedUpTo(f, req, cached, lookup, md, n - 1), Segment(f, req, cached, lookup, md, n - 1), e);
    }
  }

  /** How often a call that is not a full hit prints an event. */
  lemma PrintedCount(f: WriteEventFilters, req: Period, cached: seq<Event>, lookup: Lookup, md: seq<Period>,
                     trail: multiset<Event>, e: Event)
    requires f.Valid() && Faithful(lookup, trail, md)
    ensures CountedUpTo(f, req, cached, lookup, md, |md|, trail[e], e, Wanted(f, e))
  {
    forall i | 0 <= i < |md| ensures SegmentCounted(f, req, cached, lookup, md, i, trail[e], e, Wanted(f, e)) {
      assert Answers(Pages(lookup, md[i]), md[i], trail);
      SegmentCount(f, req, cached, lookup, md, i, trail, e);
    }
    SegmentsAddUp(f, req, cached, lookup, md, |md|, trail[e], e, Wanted(f, e));
  }
}
