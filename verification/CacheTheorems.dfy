/**
 Cache transparency: what one call of getPages prints, compared with the region's trail, and what later requests
 find in the cache.
 */
module CacheTheorems {
  import opened Wrappers
  import opened Periods
  import opened MissingPeriods
  import opened Events
  import opened Filters
  import opened Selection
  import opened EventCache
  import opened Sorting
  import opened WriteEvents
  import opened PageTheorems
  import opened MergedGaps

  ghost predicate SoundFor(d: CacheData, trail: multiset<Event>, region: string, except: seq<Period>, e: Event) {
    e.FromRegion(region) ==>
      && (e in d.event ==> e in trail && e.DuringAny(d.period))
      && (e in trail && e.DuringAny(d.period) && !e.DuringAny(except) ==> e in d.event)
  }

  /**
   The cached events of a region are trail events in covered seconds, and all of those in covered seconds are cached,
   except perhaps in the given periods.
   */
  ghost predicate RegionSound(d: CacheData, trail: multiset<Event>, region: string, except: seq<Period>) {
    forall e: Event :: SoundFor(d, trail, region, except, e)
  }

  ghost predicate TrueFor(d: CacheData, trail: multiset<Event>, region: string, e: Event) {
    e.FromRegion(region) && e in d.event ==> e in trail && e.DuringAny(d.period)
  }

  /** Half of that: the cached events of a region are trail events in covered seconds, but some may be missing. */
  ghost predicate RegionTrue(d: CacheData, trail: multiset<Event>, region: string) {
    forall e: Event :: TrueFor(d, trail, region, e)
  }

  ghost predicate ExactFor(d: CacheData, trail: multiset<Event>, region: string, except: seq<Period>, e: Event) {
    e.FromRegion(region) ==>
      Count(d.event, e) == if e.DuringAny(d.period) && !e.DuringAny(except) then trail[e] else 0
  }

  /** The same with multiplicities: nothing is stored twice. */
  ghost predicate RegionExact(d: CacheData, trail: multiset<Event>, region: string, except: seq<Period>) {
    forall e: Event :: ExactFor(d, trail, region, except, e)
  }

  /** The event is one that an uncached query of the region, filtered, would print. */
  ghost predicate Due(f: WriteEventFilters, req: Period, trail: multiset<Event>, e: Event) {
    Wanted(f, e) && e in trail && e.time.Some? && req.startTime <= e.time.value <= req.endTime
  }

  /** A call under the assumptions of this file. */
  ghost predicate GoodCall(before: CacheData, pending: seq<Period>, lookup: Lookup, f: WriteEventFilters,
                           region: string, req: Period, out: PageOutcome, trail: multiset<Event>)
  {
    && f.Valid()
    && Ready(before, pending, req)
    && Faithful(lookup, trail, out.asked) && TrailOf(trail, region)
    && PageRun(before, pending, lookup, f, region, req, out)
  }

  // ----- Full hits -----

  lemma FullOutcome(before: CacheData, lookup: Lookup, f: WriteEventFilters, region: string, req: Period, out: PageOutcome)
    requires NormalForm(before.period) && req.Valid() && ContainedInOne(req, before.period)
    requires PageRun(before, [], lookup, f, region, req, out)
    ensures out.asked == [] && out.missing == []
    ensures out.printed == Filtered(f, Window(CachedEvents(before, region, req), req))
    ensures Saved(before, EMPTY_CACHE, out.cache)
  {
    FullOverlapIff(req, before.period);
    PermutationContains(out.order, [req], req);
  }

  lemma {:induction false} TouchedOnce(c: seq<Period>, req: Period)
    requires NormalForm(c) && req.Valid() && ContainedInOne(req, c)
    ensures TouchCount(c, req) == 1
  {
    var i :| 0 <= i < |c| && req.Within(c[i]);
    TouchCountFull(c, req, i, |c|);
    assert c[..|c|] == c;
  }

  lemma NothingAdded(before: CacheData, after: CacheData)
    requires NormalForm(before.period) && Saved(before, EMPTY_CACHE, after)
    ensures after.period == before.period
  {
    forall t ensures Covered(after.period, t) <==> Covered(before.period, t) {
      SavedCovers(before, EMPTY_CACHE, after, t);
    }
    SavedCovers(before, EMPTY_CACHE, after, 0);
    NormalFormUnique(after.period, before.period);
  }

  /**
   When one cached period contains the request, the API is not called, the cached periods stay as they are, and each
   matching cached event of the region and window is printed exactly as often as it is cached.
   */
  lemma {:induction false} FullHit(before: CacheData, lookup: Lookup, f: WriteEventFilters, region: string, req: Period,
                                   out: PageOutcome, e: Event)
    requires f.Valid() && NormalForm(before.period) && req.Valid() && ContainedInOne(req, before.period)
    requires PageRun(before, [], lookup, f, region, req, out)
    ensures out.asked == [] && out.missing == []
    ensures out.cache.period == before.period && Count(out.cache.event, e) == Count(before.event, e)
    ensures Count(out.printed, e) == if Wanted(f, e) && e.FromRegion(region) && e.During(req) then Count(before.event, e) else 0
  {
    FullOutcome(before, lookup, f, region, req, out);
    FullPrinted(before, f, region, req, e);
    NothingAdded(before, out.cache);
    SavedCount(before, EMPTY_CACHE, out.cache, e);
  }

  lemma {:induction false} FullPrinted(before: CacheData, f: WriteEventFilters, region: string, req: Period, e: Event)
    requires f.Valid() && NormalForm(before.period) && req.Valid() && ContainedInOne(req, before.period)
    ensures Count(Filtered(f, Window(CachedEvents(before, region, req), req)), e) ==
      if Wanted(f, e) && e.FromRegion(region) && e.During(req) then Count(before.event, e) else 0
  {
    var cached := CachedEvents(before, region, req);
    FilteredCount(f, Window(cached, req), e);
    WindowCount(cached, req, e);
    CachedEventsCount(before, region, req, e);
    TouchedOnce(before.period, req);
  }

  // ----- Misses and partial hits -----

  lemma {:induction false} PartialOutcome(before: CacheData, pending: seq<Period>, lookup: Lookup, f: WriteEventFilters,
                                          region: string, req: Period, out: PageOutcome)
    requires Ready(before, pending, req) && PageRun(before, pending, lookup, f, region, req, out)
    requires !IsFull(before.period, pending, req)
    ensures var md := out.asked;
      && Pending(before.period, req, md)
      && out.printed == PrintedUpTo(f, req, CachedEvents(before, region, req), lookup, md, |md|)
      && (pending != [] ==> md == pending)
  {
    OrderPending(before, pending, lookup, f, region, req, out);
  }

  /** How often the loop over the missing periods prints an event. */
  lemma {:induction false} LoopCount(c: seq<Period>, lookup: Lookup, f: WriteEventFilters, req: Period,
                                     cached: seq<Event>, md: seq<Period>, trail: multiset<Event>, e: Event)
    requires f.Valid() && Faithful(lookup, trail, md) && Pending(c, req, md)
    requires Count(cached, e) > 0 ==> e.During(req)
    ensures Count(PrintedUpTo(f, req, cached, lookup, md, |md|), e) ==
      if !Wanted(f, e) || md == [] then 0
      else if e.DuringAny(md) then CachedShares(req, md, |md|, e, Count(cached, e)) + trail[e]
      else Count(cached, e)
  {
    PrintedCount(f, req, cached, lookup, md, trail, e);
    assert CountedUpTo(f, req, cached, lookup, md, |md|, trail[e], e, Wanted(f, e));
    SharesOf(c, req, md, e, Count(cached, e), trail[e]);
  }

  lemma {:induction false} SharesOf(c: seq<Period>, req: Period, md: seq<Period>, e: Event, k: nat, copies: nat)
    requires Pending(c, req, md)
    requires k > 0 ==> e.During(req)
    ensures CachedShares(req, md, |md|, e, k) + FetchedShares(md, |md|, e, copies) ==
      if md == [] then 0
      else if e.DuringAny(md) then CachedShares(req, md, |md|, e, k) + copies
      else k
  {
    FetchedOnce(c, req, md, |md|, e, copies);
    assert md[..|md|] == md;
    if md != [] && !e.DuringAny(md) {
      if e.During(req) {
        WindowsOnce(c, req, md, |md|, e, k);
      } else {
        NothingCached(req, md, |md|, e);
      }
    }
  }

  lemma PendingInside(c: seq<Period>, req: Period, md: seq<Period>, e: Event)
    requires Pending(c, req, md) && e.DuringAny(md)
    ensures e.During(req)
  {
    var i :| 0 <= i < |md| && md[i].Contains(e.time.value);
    assert md[i].Within(req);
  }

  /** What the cache yields for the window: something exactly for the region's cached events in it. */
  lemma {:induction false} CachedIff(before: CacheData, region: string, req: Period, trail: multiset<Event>, e: Event)
    requires RegionTrue(before, trail, region)
    ensures Count(CachedEvents(before, region, req), e) > 0 <==> e.FromRegion(region) && e.During(req) && e in before.event
  {
    assert TrueFor(before, trail, region, e);
    CachedEventsCount(before, region, req, e);
    CountIsMultiplicity(before.event, e);
    ProductPositive(TouchCount(before.period, req), Count(before.event, e));
    if e.During(req) && e.DuringAny(before.period) {
      CachedTouches(before.period, req, e);
    }
  }

  lemma ProductPositive(a: nat, b: nat)
    ensures a * b > 0 <==> a > 0 && b > 0
  {
  }

  /**
   Whatever the cache lacks, and whatever filters it was filled under: a call that asks for something prints exactly the
   due events that are cached or asked for; a call that asks for nothing without being a full hit prints nothing.
   */
  lemma PartialPrinted(before: CacheData, pending: seq<Period>, lookup: Lookup, f: WriteEventFilters,
                       region: string, req: Period, out: PageOutcome, trail: multiset<Event>, e: Event)
    requires GoodCall(before, pending, lookup, f, region, req, out, trail) && !IsFull(before.period, pending, req)
    requires RegionTrue(before, trail, region)
    ensures e in out.printed <==>
      out.asked != [] && Due(f, req, trail, e) && (e in before.event || e.DuringAny(out.asked))
  {
    var cached := CachedEvents(before, region, req);
    PartialOutcome(before, pending, lookup, f, region, req, out);
    CachedIff(before, region, req, trail, e);
    assert TrueFor(before, trail, region, e);
    LoopCount(before.period, lookup, f, req, cached, out.asked, trail, e);
    CountIsMultiplicity(out.printed, e);
    if e.DuringAny(out.asked) {
      PendingInside(before.period, req, out.asked, e);
      if Count(cached, e) == 0 {
        NothingCached(req, out.asked, |out.asked|, e);
      }
    }
  }

  lemma SoundIsTrue(before: CacheData, trail: multiset<Event>, region: string, except: seq<Period>)
    requires RegionSound(before, trail, region, except)
    ensures RegionTrue(before, trail, region)
  {
    forall e: Event ensures TrueFor(before, trail, region, e) {
      assert SoundFor(before, trail, region, except, e);
    }
  }

  /** From a sound cache: the due events of seconds that are cached or asked for. */
  lemma PartialHit(before: CacheData, pending: seq<Period>, lookup: Lookup, f: WriteEventFilters,
                   region: string, req: Period, out: PageOutcome, trail: multiset<Event>, e: Event)
    requires GoodCall(before, pending, lookup, f, region, req, out, trail) && !IsFull(before.period, pending, req)
    requires RegionSound(before, trail, region, pending)
    ensures e in out.printed <==>
      out.asked != [] && Due(f, req, trail, e) && (e.DuringAny(before.period) || e.DuringAny(out.asked))
  {
    SoundIsTrue(before, trail, region, pending);
    PartialPrinted(before, pending, lookup, f, region, req, out, trail, e);
    PartialOutcome(before, pending, lookup, f, region, req, out);
    assert SoundFor(before, trail, region, pending, e);
  }

  /** A full hit prints exactly the due events that are cached. */
  lemma FullPrintedIff(before: CacheData, lookup: Lookup, f: WriteEventFilters, region: string, req: Period, out: PageOutcome,
                       trail: multiset<Event>, e: Event)
    requires GoodCall(before, [], lookup, f, region, req, out, trail) && ContainedInOne(req, before.period)
    requires RegionTrue(before, trail, region)
    ensures e in out.printed <==> Due(f, req, trail, e) && e in before.event
  {
    FullHit(before, lookup, f, region, req, out, e);
    assert TrueFor(before, trail, region, e);
    CountIsMultiplicity(out.printed, e);
    CountIsMultiplicity(before.event, e);
  }

  // ----- Transparency -----

  lemma FreshAsked(before: CacheData, lookup: Lookup, f: WriteEventFilters, region: string, req: Period, out: PageOutcome)
    requires NormalForm(before.period) && req.Valid() && PageRun(before, [], lookup, f, region, req, out)
    requires !ContainedInOne(req, before.period)
    ensures !IsFull(before.period, [], req)
    ensures out.asked == [] <==> Missing(req, before.period) == []
    ensures forall t :: Covered(out.asked, t) <==> Covered(Missing(req, before.period), t)
  {
    FullOverlapIff(req, before.period);
    OrderPending(before, [], lookup, f, region, req, out);
  }

  lemma HitPrintedIff(before: CacheData, lookup: Lookup, f: WriteEventFilters, region: string, req: Period, out: PageOutcome,
                      trail: multiset<Event>, e: Event)
    requires GoodCall(before, [], lookup, f, region, req, out, trail) && RegionSound(before, trail, region, [])
    requires ContainedInOne(req, before.period)
    ensures e in out.printed <==> Due(f, req, trail, e)
  {
    SoundIsTrue(before, trail, region, []);
    FullPrintedIff(before, lookup, f, region, req, out, trail, e);
    assert SoundFor(before, trail, region, [], e);
    HeldByOne(before.period, req, e);
  }

  lemma HeldByOne(c: seq<Period>, req: Period, e: Event)
    requires ContainedInOne(req, c)
    ensures e.During(req) ==> e.DuringAny(c)
  {
    var i :| 0 <= i < |c| && req.Within(c[i]);
    if e.During(req) {
      assert c[i].Contains(e.time.value);
    }
  }

  lemma HitKeepsAll(req: Period, c: seq<Period>, t: int)
    requires NormalForm(c) && req.Valid() && ContainedInOne(req, c)
    ensures Missing(req, c) != [] && (req.Contains(t) ==> !Lost(req, c, t))
  {
    FullOverlapIff(req, c);
    if req.Contains(t) {
      WindowInOnePeriod(c, req);
    }
  }

  /** In a second that is cached or asked for. */
  ghost predicate Reached(c: seq<Period>, asked: seq<Period>, e: Event) {
    e.DuringAny(c) || e.DuringAny(asked)
  }

  lemma MissPrintedIff(before: CacheData, lookup: Lookup, f: WriteEventFilters, region: string, req: Period, out: PageOutcome,
                       trail: multiset<Event>, e: Event)
    requires GoodCall(before, [], lookup, f, region, req, out, trail) && RegionSound(before, trail, region, [])
    requires !ContainedInOne(req, before.period)
    ensures e in out.printed <==>
      Missing(req, before.period) != [] && Due(f, req, trail, e) && Reached(before.period, Missing(req, before.period), e)
  {
    FreshIsReverse(before, lookup, f, region, req, out);
    PartialHit(before, [], lookup, f, region, req, out, trail, e);
    if e.time.Some? {
      ReverseCoversAt(Missing(req, before.period), e.time.value);
    }
  }

  lemma ReachedIff(req: Period, c: seq<Period>, e: Event)
    requires NormalForm(c) && req.Valid() && !ContainedInOne(req, c) && e.During(req)
    ensures Reached(c, Missing(req, c), e) <==> !Lost(req, c, e.time.value)
  {
    CoverageUpToLost(req, c, e.time.value);
  }

  /** A fresh call on a sound cache prints a due event unless its second is lost or nothing at all is asked for. */
  lemma PrintedIff(before: CacheData, lookup: Lookup, f: WriteEventFilters, region: string, req: Period, out: PageOutcome,
                   trail: multiset<Event>, e: Event)
    requires GoodCall(before, [], lookup, f, region, req, out, trail) && RegionSound(before, trail, region, [])
    ensures e in out.printed <==>
      Due(f, req, trail, e) && Missing(req, before.period) != [] && !Lost(req, before.period, e.time.value)
  {
    if ContainedInOne(req, before.period) {
      HitPrintedIff(before, lookup, f, region, req, out, trail, e);
      if Due(f, req, trail, e) {
        HitKeepsAll(req, before.period, e.time.value);
      }
    } else {
      MissPrintedIff(before, lookup, f, region, req, out, trail, e);
      if Due(f, req, trail, e) {
        ReachedIff(req, before.period, e);
      }
    }
  }

  ghost predicate Transparent(f: WriteEventFilters, req: Period, out: PageOutcome, trail: multiset<Event>) {
    forall e: Event :: e in out.printed <==> Due(f, req, trail, e)
  }

  /**
   A fresh call on a sound cache prints what an uncached query would, as a set, exactly when no due event lies in a lost
   second and either something is missing or there is nothing to print.
   */
  lemma TransparentIff(before: CacheData, lookup: Lookup, f: WriteEventFilters, region: string, req: Period, out: PageOutcome,
                       trail: multiset<Event>)
    requires GoodCall(before, [], lookup, f, region, req, out, trail) && RegionSound(before, trail, region, [])
    ensures Transparent(f, req, out, trail) <==>
      forall e: Event | Due(f, req, trail, e) :: Missing(req, before.period) != [] && !Lost(req, before.period, e.time.value)
  {
    forall e: Event
      ensures e in out.printed <==>
        Due(f, req, trail, e) && Missing(req, before.period) != [] && !Lost(req, before.period, e.time.value)
    {
      PrintedIff(before, lookup, f, region, req, out, trail, e);
    }
  }

  lemma SomethingMissing(req: Period, c: seq<Period>)
    requires NormalForm(c) && req.Valid() && !LosesSeconds(req, c)
    ensures Missing(req, c) != []
  {
    FullOverlapIff(req, c);
    if !ContainedInOne(req, c) {
      WindowInOnePeriod(c, req);
      var t :| req.Contains(t) && !Covered(c, t);
      CoverageUpToLost(req, c, t);
      assert !Lost(req, c, t);
    }
  }

  /** With no second lost, a fresh call on a sound cache is transparent for every trail and every filter. */
  lemma TransparentWithoutLoss(before: CacheData, lookup: Lookup, f: WriteEventFilters, region: string, req: Period,
                               out: PageOutcome, trail: multiset<Event>)
    requires GoodCall(before, [], lookup, f, region, req, out, trail) && RegionSound(before, trail, region, [])
    requires !LosesSeconds(req, before.period)
    ensures Transparent(f, req, out, trail)
  {
    SomethingMissing(req, before.period);
    TransparentIff(before, lookup, f, region, req, out, trail);
  }

  // ----- Multiplicities -----

  /** How often the cache yields an event of the requested region and period. */
  ghost function CachedCopies(before: CacheData, req: Period, e: Event): nat {
    TouchCount(before.period, req) * Count(before.event, e)
  }

  /** What the loop over the missing periods prints of an event that is fetched `copies` times and cached `cached` times. */
  ghost function PrintedCopies(req: Period, md: seq<Period>, e: Event, copies: nat, cached: nat): nat {
    if e.time.None? || md == [] then 0
    else if e.DuringAny(md) then copies + Reprinted(req, md, e.time.value, cached)
    else cached
  }

  /**
   How often a call that is not a full hit prints an event, whatever the cache holds: once per copy fetched, and per touching
   cached period and cached copy if its second is not asked for. Of the seconds asked for, only those at the edge of a
   window are printed from the cache again.
   */
  lemma {:induction false} PrintedTimes(before: CacheData, pending: seq<Period>, lookup: Lookup, f: WriteEventFilters,
                                        region: string, req: Period, out: PageOutcome, trail: multiset<Event>, e: Event)
    requires GoodCall(before, pending, lookup, f, region, req, out, trail) && !IsFull(before.period, pending, req)
    ensures Count(out.printed, e) ==
      if Wanted(f, e) && e.During(req) && e.FromRegion(region)
      then PrintedCopies(req, out.asked, e, trail[e], CachedCopies(before, req, e))
      else 0
  {
    var cached := CachedEvents(before, region, req);
    PartialOutcome(before, pending, lookup, f, region, req, out);
    CachedEventsCount(before, region, req, e);
    LoopCount(before.period, lookup, f, req, cached, out.asked, trail, e);
    if e.DuringAny(out.asked) {
      PendingInside(before.period, req, out.asked, e);
      AskedShares(before.period, req, out.asked, |out.asked|, e, Count(cached, e));
      assert e !in trail ==> trail[e] == 0;
    }
  }

  /** Each due event comes out as often as the trail holds it. */
  ghost predicate PrintsOnce(f: WriteEventFilters, req: Period, out: PageOutcome, trail: multiset<Event>) {
    forall e: Event :: Count(out.printed, e) == if Due(f, req, trail, e) then trail[e] else 0
  }

  /** What is printed again at the edges of the missing periods, told from the list in ascending order. */
  ghost function EdgeCopies(req: Period, m: seq<Period>, t: int, k: nat): nat
    requires m != []
  {
    (if m[|m| - 1].endTime != req.endTime && t == m[|m| - 1].endTime then k else 0)
    + (if t == m[0].startTime then k else 0)
  }

  lemma {:induction false} EdgesReversed(req: Period, m: seq<Period>, t: int, k: nat)
    requires m != []
    ensures Reverse(m) != [] && Reprinted(req, Reverse(m), t, k) == EdgeCopies(req, m, t, k)
  {
  }

  lemma FreshEdges(req: Period, c: seq<Period>, t: int, k: nat)
    requires NormalForm(c) && req.Valid() && !ContainedInOne(req, c)
    requires Covered(c, t) && Covered(Missing(req, c), t)
    ensures EdgeCopies(req, Missing(req, c), t, k) == if t == req.startTime then k else 0
  {
    LastReturnedUncached(req, c);
    FirstReturnedAgain(req, c, t);
  }

  lemma {:induction false} ReverseCoversAt(ps: seq<Period>, t: int)
    ensures Covered(Reverse(ps), t) <==> Covered(ps, t)
  {
    ReverseCovers(ps);
  }

  lemma FreshIsReverse(before: CacheData, lookup: Lookup, f: WriteEventFilters, region: string, req: Period, out: PageOutcome)
    requires NormalForm(before.period) && req.Valid() && PageRun(before, [], lookup, f, region, req, out)
    requires !ContainedInOne(req, before.period)
    ensures out.asked == Reverse(Missing(req, before.period)) && !IsFull(before.period, [], req)
  {
    FreshAsked(before, lookup, f, region, req, out);
    FreshPending(before.period, req, out.order);
  }

  /**
   How many copies of a due event a fresh call prints, if the trail holds `copies` of it and the cache yields `cached`: none if
   its second is lost or nothing is asked for; the fetched ones if it is not cached; the cached ones if it is; and if it is
   cached and fetched again, the fetched ones, plus the cached ones when it lies in the request's first second.
   */
  ghost function FreshCopies(req: Period, c: seq<Period>, e: Event, copies: nat, cached: nat): nat {
    if e.time.None? || Missing(req, c) == [] || Lost(req, c, e.time.value) then 0
    else if !Covered(c, e.time.value) then copies
    else if Refetched(req, c, e.time.value) then copies + (if e.time.value == req.startTime then cached else 0)
    else cached
  }

  /** The same, told from what is asked for. */
  ghost function AskedCopies(req: Period, m: seq<Period>, e: Event, copies: nat, cached: nat): nat {
    if e.time.None? || m == [] then 0
    else if Covered(m, e.time.value) then copies + EdgeCopies(req, m, e.time.value, cached)
    else cached
  }

  lemma {:induction false} CopiesReversed(req: Period, m: seq<Period>, e: Event, copies: nat, cached: nat)
    ensures PrintedCopies(req, Reverse(m), e, copies, cached) == AskedCopies(req, m, e, copies, cached)
  {
    if e.time.Some? && m != [] {
      ReverseCoversAt(m, e.time.value);
      EdgesReversed(req, m, e.time.value, cached);
    }
  }

  /** How often a fresh call on an exact cache prints an event, for every valid request that is not a full hit. */
  lemma {:induction false} FreshTimes(before: CacheData, lookup: Lookup, f: WriteEventFilters, region: string,
                                      req: Period, out: PageOutcome, trail: multiset<Event>, e: Event)
    requires GoodCall(before, [], lookup, f, region, req, out, trail) && RegionExact(before, trail, region, [])
    requires !ContainedInOne(req, before.period)
    ensures Count(out.printed, e) ==
      if Due(f, req, trail, e)
      then FreshCopies(req, before.period, e, trail[e], CachedCopies(before, req, e))
      else 0
  {
    if Due(f, req, trail, e) {
      AskedOrCached(before, lookup, f, region, req, out, trail, e);
      ExactCase(before, region, trail, req, e);
    } else {
      NotDueTimes(before, lookup, f, region, req, out, trail, e);
    }
  }

  lemma ExactCase(before: CacheData, region: string, trail: multiset<Event>, req: Period, e: Event)
    requires NormalForm(before.period) && req.Valid() && !ContainedInOne(req, before.period)
    requires RegionExact(before, trail, region, []) && TrailOf(trail, region) && e in trail && e.During(req)
    ensures var cached := CachedCopies(before, req, e);
      FreshCopies(req, before.period, e, trail[e], cached) == AskedCopies(req, Missing(req, before.period), e, trail[e], cached)
  {
    ExactCopies(before, region, trail, e);
    CopiesByCase(req, before.period, e, trail[e], CachedCopies(before, req, e));
  }

  lemma CopiesByCase(req: Period, c: seq<Period>, e: Event, fetched: nat, cached: nat)
    requires NormalForm(c) && req.Valid() && !ContainedInOne(req, c) && e.During(req)
    requires !e.DuringAny(c) ==> cached == 0
    ensures FreshCopies(req, c, e, fetched, cached) == AskedCopies(req, Missing(req, c), e, fetched, cached)
  {
    var t := e.time.value;
    CoverageUpToLost(req, c, t);
    if Missing(req, c) != [] && Covered(c, t) {
      FreshReprints(req, c, t, fetched, cached);
    }
  }

  lemma {:induction false} NotDueTimes(before: CacheData, lookup: Lookup, f: WriteEventFilters, region: string,
                                       req: Period, out: PageOutcome, trail: multiset<Event>, e: Event)
    requires GoodCall(before, [], lookup, f, region, req, out, trail) && RegionExact(before, trail, region, [])
    requires !ContainedInOne(req, before.period) && !Due(f, req, trail, e)
    ensures Count(out.printed, e) == 0
  {
    FreshAsked(before, lookup, f, region, req, out);
    PrintedTimes(before, [], lookup, f, region, req, out, trail, e);
    ExactCopies(before, region, trail, e);
    if e !in trail && e.FromRegion(region) {
      assert CachedCopies(before, req, e) == 0;
    }
  }

  lemma {:induction false} AskedOrCached(before: CacheData, lookup: Lookup, f: WriteEventFilters, region: string,
                                         req: Period, out: PageOutcome, trail: multiset<Event>, e: Event)
    requires GoodCall(before, [], lookup, f, region, req, out, trail)
    requires !ContainedInOne(req, before.period) && Due(f, req, trail, e)
    ensures Count(out.printed, e) ==
      AskedCopies(req, Missing(req, before.period), e, trail[e], CachedCopies(before, req, e))
  {
    var cached := CachedCopies(before, req, e);
    FreshIsReverse(before, lookup, f, region, req, out);
    CopiesReversed(req, Missing(req, before.period), e, trail[e], cached);
    PrintedTimes(before, [], lookup, f, region, req, out, trail, e);
  }

  lemma FreshReprints(req: Period, c: seq<Period>, t: int, fetched: nat, cached: nat)
    requires NormalForm(c) && req.Valid() && !ContainedInOne(req, c) && Missing(req, c) != []
    requires req.Contains(t) && Covered(c, t)
    ensures (if Covered(Missing(req, c), t) then fetched + EdgeCopies(req, Missing(req, c), t, cached) else cached) ==
      if Refetched(req, c, t) then fetched + (if t == req.startTime then cached else 0) else cached
  {
    ReturnedAgainIff(req, c, t);
    if Covered(Missing(req, c), t) {
      FreshEdges(req, c, t, cached);
    }
  }

  lemma {:induction false} ExactCopies(before: CacheData, region: string, trail: multiset<Event>, e: Event)
    requires RegionExact(before, trail, region, []) && TrailOf(trail, region)
    ensures e.FromRegion(region) ==> Count(before.event, e) == if e.DuringAny(before.period) then trail[e] else 0
    ensures e in trail ==> e.FromRegion(region) && e.time.Some?
    ensures e !in trail ==> trail[e] == 0
  {
    assert ExactFor(before, trail, region, [], e);
  }

  lemma OnceIff(k: nat, n: nat)
    requires n > 0
    ensures k * n == n <==> k == 1
    ensures k > 0 ==> k * n > 0
  {
    if k > 1 {
      assert k * n >= 2 * n;
    }
  }

  /**
   Events of second t come out once: nothing is lost at t and the answer is not empty; and if t is cached, then only one
   cached period touches the request, or t is fetched again and is not the request's first second.
   */
  ghost predicate OnceAt(req: Period, c: seq<Period>, touching: nat, t: int) {
    && Missing(req, c) != [] && !Lost(req, c, t)
    && (Covered(c, t) ==> if Refetched(req, c, t) then t != req.startTime else touching == 1)
  }

  /** Every second that holds a due event is of that kind. */
  ghost predicate OnceThroughout(f: WriteEventFilters, req: Period, c: seq<Period>, touching: nat, trail: multiset<Event>) {
    forall e: Event | Due(f, req, trail, e) :: OnceAt(req, c, touching, e.time.value)
  }

  /**
   For every valid request that is not a full hit, on an exact cache: each due event is printed exactly once if and only if
   every second that holds one is of that kind.
   */
  lemma {:induction false} PrintsOnceIff(before: CacheData, lookup: Lookup, f: WriteEventFilters, region: string,
                                         req: Period, out: PageOutcome, trail: multiset<Event>)
    requires GoodCall(before, [], lookup, f, region, req, out, trail) && RegionExact(before, trail, region, [])
    requires !ContainedInOne(req, before.period)
    ensures PrintsOnce(f, req, out, trail) <==>
      OnceThroughout(f, req, before.period, TouchCount(before.period, req), trail)
  {
    forall e: Event
      ensures Count(out.printed, e) == (if Due(f, req, trail, e) then trail[e] else 0) <==>
        (Due(f, req, trail, e) ==> OnceAt(req, before.period, TouchCount(before.period, req), e.time.value))
    {
      FreshTimes(before, lookup, f, region, req, out, trail, e);
      if Due(f, req, trail, e) {
        ExactCopies(before, region, trail, e);
        OnceIff(TouchCount(before.period, req), trail[e]);
        if e.DuringAny(before.period) {
          CachedTouches(before.period, req, e);
        }
      }
    }
  }

  /** Without one-second holes: if and only if at most one cached period touches the request or no due event is cached. */
  lemma {:induction false} PrintsOnceWithoutHoles(before: CacheData, lookup: Lookup, f: WriteEventFilters,
                                                  region: string, req: Period, out: PageOutcome, trail: multiset<Event>)
    requires GoodCall(before, [], lookup, f, region, req, out, trail) && RegionExact(before, trail, region, [])
    requires !ContainedInOne(req, before.period) && !HasHole(req, before.period)
    ensures PrintsOnce(f, req, out, trail) <==>
      || TouchCount(before.period, req) <= 1
      || (forall e: Event | Due(f, req, trail, e) :: !e.DuringAny(before.period))
  {
    var c := before.period;
    PrintsOnceIff(before, lookup, f, region, req, out, trail);
    NoHoleNoLoss(req, c);
    forall e: Event | Due(f, req, trail, e)
      ensures OnceAt(req, c, TouchCount(c, req), e.time.value) <==> TouchCount(c, req) <= 1 || !e.DuringAny(c)
    {
      assert !Lost(req, c, e.time.value);
      if e.DuringAny(c) {
        CachedTouches(c, req, e);
        ReturnedAgainIff(req, c, e.time.value);
      }
    }
  }

  lemma {:induction false} CachedTouches(c: seq<Period>, req: Period, e: Event)
    requires e.During(req) && e.DuringAny(c)
    ensures TouchCount(c, req) > 0
  {
    var i :| 0 <= i < |c| && c[i].Contains(e.time.value);
    assert c[i].Overlap(req);
    TouchCountPositive(c, req);
  }

  // ----- Convergence -----

  /**
   After a fresh call the request is a full hit exactly when it lost no second; then so is every valid request inside it.
   */
  lemma Converges(before: CacheData, lookup: Lookup, f: WriteEventFilters, region: string, req: Period, out: PageOutcome,
                  trail: multiset<Event>)
    requires GoodCall(before, [], lookup, f, region, req, out, trail)
    ensures FullOverlap(req, out.cache.period) <==> !LosesSeconds(req, before.period)
    ensures !LosesSeconds(req, before.period) ==>
      forall sub: Period | sub.Valid() && sub.Within(req) :: FullOverlap(sub, out.cache.period)
  {
    PageGrows(before, [], lookup, f, region, req, out, trail);
    if ContainedInOne(req, before.period) {
      FullHitCovers(before, lookup, f, region, req, out);
    } else {
      FreshAsked(before, lookup, f, region, req, out);
    }
    forall t | req.Contains(t) ensures Covered(out.cache.period, t) <==> !Lost(req, before.period, t) {
      CoverageUpToLost(req, before.period, t);
    }
    FullOverlapIff(req, out.cache.period);
    WindowInOnePeriod(out.cache.period, req);
    if !LosesSeconds(req, before.period) {
      forall sub: Period | sub.Valid() && sub.Within(req) ensures FullOverlap(sub, out.cache.period) {
        FullOverlapIff(sub, out.cache.period);
      }
    }
  }

  lemma FullHitCovers(before: CacheData, lookup: Lookup, f: WriteEventFilters, region: string, req: Period, out: PageOutcome)
    requires NormalForm(before.period) && req.Valid() && ContainedInOne(req, before.period)
    requires PageRun(before, [], lookup, f, region, req, out)
    ensures forall t | req.Contains(t) :: Covered(before.period, t) && !Lost(req, before.period, t)
  {
    WindowInOnePeriod(before.period, req);
  }

  // ----- Order -----

  ghost predicate AllFrom(events: seq<Event>, lo: int) {
    forall e | e in events :: e.AtOrAfter(lo)
  }

  ghost predicate AllUntil(events: seq<Event>, hi: int) {
    forall e | e in events :: e.AtOrBefore(hi)
  }

  lemma NewestFirstConcat(a: seq<Event>, b: seq<Event>, bound: int)
    requires NewestFirst(a) && NewestFirst(b) && AllFrom(a, bound) && AllUntil(b, bound)
    ensures NewestFirst(a + b)
  {
    forall i, j | 0 <= i < j < |a + b| ensures PairInOrder(a + b, StoredBefore, i, j) {
      if j < |a| {
        assert PairInOrder(a, StoredBefore, i, j);
      } else if i < |a| {
        assert (a + b)[i] in a && (a + b)[j] in b;
      } else {
        assert PairInOrder(b, StoredBefore, i - |a|, j - |a|);
      }
    }
  }

  lemma NewestFirstParts(a: seq<Event>, b: seq<Event>)
    requires NewestFirst(a + b)
    ensures NewestFirst(a) && NewestFirst(b)
  {
    forall i, j | 0 <= i < j < |a| ensures PairInOrder(a, StoredBefore, i, j) {
      assert PairInOrder(a + b, StoredBefore, i, j);
    }
    forall i, j | 0 <= i < j < |b| ensures PairInOrder(b, StoredBefore, i, j) {
      assert PairInOrder(a + b, StoredBefore, |a| + i, |a| + j);
    }
  }

  /** What one window prints from the cache lies in the window. */
  lemma FilteredWindow(f: WriteEventFilters, cached: seq<Event>, p: Period)
    requires f.Valid()
    ensures var s := Filtered(f, Window(cached, p)); AllFrom(s, p.startTime) && AllUntil(s, p.endTime)
  {
    var s := Filtered(f, Window(cached, p));
    forall e | e in s ensures e.During(p) {
      CountIsMultiplicity(s, e);
      FilteredCount(f, Window(cached, p), e);
      WindowCount(cached, p, e);
    }
  }

  lemma {:induction false} FilteredFetched(f: WriteEventFilters, pages: seq<EventResult>, p: Period,
                                           trail: multiset<Event>)
    requires f.Valid() && Answers(pages, p, trail)
    ensures var s := Filtered(f, FetchedEvents(pages));
      NewestFirst(s) && AllFrom(s, p.startTime) && AllUntil(s, p.endTime)
  {
    AnswersMean(pages, p, trail);
    SelectNewestFirst(FetchedEvents(pages), e => Passes(f, e));
    var s := Filtered(f, FetchedEvents(pages));
    forall e | e in s ensures e.During(p) {
      CountIsMultiplicity(s, e);
      FilteredCount(f, FetchedEvents(pages), e);
    }
  }

  /** What iteration i prints from the cache is newest first. */
  ghost predicate BlockOrdered(f: WriteEventFilters, req: Period, cached: seq<Event>, md: seq<Period>, i: nat)
    requires i < |md|
  {
    && (i == 0 ==> NewestFirst(PrintHead(f, req, cached, md)))
    && NewestFirst(Filtered(f, Window(cached, Between(req, md, i))))
  }

  /** One iteration prints nothing newer than the piece it fetches unless it is the first, and newest first if its windows do. */
  lemma {:induction false} SegmentOrder(c: seq<Period>, f: WriteEventFilters, req: Period, cached: seq<Event>,
                                        lookup: Lookup, md: seq<Period>, i: nat, trail: multiset<Event>)
    requires i < |md| && f.Valid() && Answers(Pages(lookup, md[i]), md[i], trail) && Pending(c, req, md)
    ensures var s := Segment(f, req, cached, lookup, md, i);
      && (NewestFirst(s) <==> BlockOrdered(f, req, cached, md, i))
      && (i + 1 < |md| ==> AllFrom(s, md[i + 1].endTime))
      && (i > 0 ==> AllUntil(s, md[i].endTime))
  {
    var head := if i == 0 then PrintHead(f, req, cached, md) else [];
    var fetched := Filtered(f, FetchedEvents(Pages(lookup, md[i])));
    var between := Filtered(f, Window(cached, Between(req, md, i)));
    if i == 0 && Head(req, md).Some? {
      FilteredWindow(f, cached, Head(req, md).value);
    }
    FilteredFetched(f, Pages(lookup, md[i]), md[i], trail);
    FilteredWindow(f, cached, Between(req, md, i));
    assert AllFrom(head, md[i].endTime);
    assert AllFrom(head + fetched, md[i].startTime);
    if BlockOrdered(f, req, cached, md, i) {
      NewestFirstConcat(head, fetched, md[i].endTime);
      NewestFirstConcat(head + fetched, between, md[i].startTime);
    }
    if NewestFirst(head + fetched + between) {
      NewestFirstParts(head + fetched, between);
      NewestFirstParts(head, fetched);
    }
  }

  ghost predicate SegmentsOrdered(f: WriteEventFilters, req: Period, cached: seq<Event>, lookup: Lookup, md: seq<Period>, n: nat)
    requires n <= |md|
  {
    n == 0 || (SegmentsOrdered(f, req, cached, lookup, md, n - 1) && NewestFirst(Segment(f, req, cached, lookup, md, n - 1)))
  }

  lemma {:induction false} LoopOrder(c: seq<Period>, f: WriteEventFilters, req: Period, cached: seq<Event>, lookup: Lookup,
                                     md: seq<Period>, n: nat, trail: multiset<Event>)
    requires f.Valid() && Faithful(lookup, trail, md) && Pending(c, req, md) && 0 < n <= |md|
    ensures NewestFirst(PrintedUpTo(f, req, cached, lookup, md, n)) <==> SegmentsOrdered(f, req, cached, lookup, md, n)
    ensures n < |md| ==> AllFrom(PrintedUpTo(f, req, cached, lookup, md, n), md[n].endTime)
  {
    SegmentBounds(c, f, req, cached, lookup, md, n - 1, trail);
    if n == 1 {
      FirstSegment(f, req, cached, lookup, md);
    } else {
      LoopOrder(c, f, req, cached, lookup, md, n - 1, trail);
      LoopOrderNext(c, f, req, cached, lookup, md, n);
    }
  }

  lemma {:induction false} FirstSegment(f: WriteEventFilters, req: Period, cached: seq<Event>, lookup: Lookup,
                                        md: seq<Period>)
    requires md != []
    ensures PrintedUpTo(f, req, cached, lookup, md, 1) == Segment(f, req, cached, lookup, md, 0)
    ensures SegmentsOrdered(f, req, cached, lookup, md, 1) <==> NewestFirst(Segment(f, req, cached, lookup, md, 0))
  {
    var segment := Segment(f, req, cached, lookup, md, 0);
    assert PrintedUpTo(f, req, cached, lookup, md, 0) == [] && [] + segment == segment;
    assert SegmentsOrdered(f, req, cached, lookup, md, 0);
  }

  lemma LoopOrderNext(c: seq<Period>, f: WriteEventFilters, req: Period, cached: seq<Event>, lookup: Lookup, md: seq<Period>,
                      n: nat)
    requires Pending(c, req, md) && 1 < n <= |md|
    requires AllFrom(PrintedUpTo(f, req, cached, lookup, md, n - 1), md[n - 1].endTime)
    requires AllUntil(Segment(f, req, cached, lookup, md, n - 1), md[n - 1].endTime)
    requires n < |md| ==> AllFrom(Segment(f, req, cached, lookup, md, n - 1), md[n].endTime)
    ensures NewestFirst(PrintedUpTo(f, req, cached, lookup, md, n)) <==>
      NewestFirst(PrintedUpTo(f, req, cached, lookup, md, n - 1)) && NewestFirst(Segment(f, req, cached, lookup, md, n - 1))
    ensures n < |md| ==> AllFrom(PrintedUpTo(f, req, cached, lookup, md, n), md[n].endTime)
  {
    var before, segment := PrintedUpTo(f, req, cached, lookup, md, n - 1), Segment(f, req, cached, lookup, md, n - 1);
    assert PrintedUpTo(f, req, cached, lookup, md, n) == before + segment;
    OrderedConcat(c, req, md, n, before, segment);
  }

  lemma SegmentBounds(c: seq<Period>, f: WriteEventFilters, req: Period, cached: seq<Event>, lookup: Lookup, md: seq<Period>,
                      i: nat, trail: multiset<Event>)
    requires f.Valid() && Faithful(lookup, trail, md) && Pending(c, req, md) && i < |md|
    ensures i + 1 < |md| ==> AllFrom(Segment(f, req, cached, lookup, md, i), md[i + 1].endTime)
    ensures i > 0 ==> AllUntil(Segment(f, req, cached, lookup, md, i), md[i].endTime)
  {
    assert Answers(Pages(lookup, md[i]), md[i], trail);
    SegmentOrder(c, f, req, cached, lookup, md, i, trail);
  }

  lemma OrderedConcat(c: seq<Period>, req: Period, md: seq<Period>, n: nat, a: seq<Event>, b: seq<Event>)
    requires 1 < n <= |md| && Pending(c, req, md)
    requires AllFrom(a, md[n - 1].endTime) && AllUntil(b, md[n - 1].endTime)
    requires n < |md| ==> AllFrom(b, md[n].endTime)
    ensures NewestFirst(a + b) <==> NewestFirst(a) && NewestFirst(b)
    ensures n < |md| ==> AllFrom(a + b, md[n].endTime)
  {
    if NewestFirst(a) && NewestFirst(b) {
      NewestFirstConcat(a, b, md[n - 1].endTime);
    }
    if NewestFirst(a + b) {
      NewestFirstParts(a, b);
    }
    if n < |md| {
      assert md[n].endTime < md[n - 1].endTime;
    }
  }

  // What the cache yields is one newest-first list, repeated for every touching period.

  function Repeat<T>(s: seq<T>, k: nat): seq<T> {
    if k == 0 then [] else Repeat(s, k - 1) + s
  }

  lemma {:induction false} CachedInRepeats(periods: seq<Period>, events: seq<Event>, req: Period)
    ensures CachedIn(periods, events, req) == Repeat(EventsDuring(events, req), TouchCount(periods, req))
  {
    if periods != [] {
      CachedInRepeats(periods[..|periods| - 1], events, req);
    }
  }

  lemma {:induction false} SelectRepeats<T>(s: seq<T>, k: nat, keep: T -> bool)
    ensures Select(Repeat(s, k), keep) == Repeat(Select(s, keep), k)
  {
    if k > 0 {
      SelectRepeats(s, k - 1, keep);
      SelectConcat(Repeat(s, k - 1), s, keep);
    }
  }

  /** The cached events that a window prints, each copy once. */
  function Shown(f: WriteEventFilters, events: seq<Event>, region: string, req: Period, w: Period): seq<Event> {
    Filtered(f, Window(RegionEvents(region, EventsDuring(events, req)), w))
  }

  lemma {:induction false} BlockRepeats(f: WriteEventFilters, before: CacheData, region: string, req: Period, w: Period)
    ensures Filtered(f, Window(CachedEvents(before, region, req), w)) ==
      Repeat(Shown(f, before.event, region, req, w), TouchCount(before.period, req))
  {
    var k, s := TouchCount(before.period, req), EventsDuring(before.event, req);
    CachedInRepeats(before.period, before.event, req);
    SelectRepeats(s, k, (e: Event) => e.FromRegion(region));
    SelectRepeats(RegionEvents(region, s), k, (e: Event) => e.AtOrAfter(w.startTime));
    SelectRepeats(EventsAfter(RegionEvents(region, s), w.startTime), k, (e: Event) => e.AtOrBefore(w.endTime));
    SelectRepeats(Window(RegionEvents(region, s), w), k, e => Passes(f, e));
  }

  ghost predicate OneTime(s: seq<Event>) {
    forall a, b | a in s && b in s :: a.time == b.time
  }

  lemma {:induction false} RepeatContains<T>(s: seq<T>, k: nat, x: T)
    ensures x in Repeat(s, k) ==> x in s
  {
    if k > 0 {
      RepeatContains(s, k - 1, x);
    }
  }

  /** A list of timed events repeated is newest first only if all its events have the same time. */
  lemma {:induction false} RepeatOrdered(s: seq<Event>, k: nat)
    requires NewestFirst(s) && forall e | e in s :: e.time.Some?
    ensures NewestFirst(Repeat(s, k)) <==> k <= 1 || OneTime(s)
  {
    var r := Repeat(s, k);
    if OneTime(s) {
      forall i, j | 0 <= i < j < |r| ensures PairInOrder(r, StoredBefore, i, j) {
        RepeatContains(s, k, r[i]);
        RepeatContains(s, k, r[j]);
      }
    } else if k == 1 {
      assert Repeat(s, 0) == [] && r == s;
    } else if k > 1 && NewestFirst(r) {
      var front := Repeat(s, k - 2);
      assert Repeat(s, k - 1) == front + s;
      assert r == front + (s + s);
      NewestFirstParts(front, s + s);
      TwiceOrdered(s);
      assert false;
    }
  }

  lemma TwiceOrdered(s: seq<Event>)
    requires NewestFirst(s + s) && forall e | e in s :: e.time.Some?
    ensures OneTime(s)
  {
    forall a, b | a in s && b in s ensures a.time == b.time {
      var i :| 0 <= i < |s| && s[i] == a;
      var j :| 0 <= j < |s| && s[j] == b;
      assert PairInOrder(s + s, StoredBefore, i, |s| + j) && PairInOrder(s + s, StoredBefore, j, |s| + i);
    }
  }

  lemma ShownOrdered(f: WriteEventFilters, events: seq<Event>, region: string, req: Period, w: Period)
    requires f.Valid() && NewestFirst(events)
    ensures NewestFirst(Shown(f, events, region, req, w))
    ensures forall e | e in Shown(f, events, region, req, w) :: e.time.Some?
  {
    var s := RegionEvents(region, EventsDuring(events, req));
    SelectNewestFirst(events, (e: Event) => e.During(req));
    SelectNewestFirst(EventsDuring(events, req), (e: Event) => e.FromRegion(region));
    WindowNewestFirst(s, w);
    SelectNewestFirst(Window(s, w), e => Passes(f, e));
    FilteredWindow(f, s, w);
  }

  /** Which events a window shows. */
  lemma ShownIff(f: WriteEventFilters, events: seq<Event>, region: string, req: Period, w: Period, e: Event)
    requires f.Valid()
    ensures e in Shown(f, events, region, req, w) <==>
      e in events && Wanted(f, e) && e.FromRegion(region) && e.During(req) && e.During(w)
  {
    var s := RegionEvents(region, EventsDuring(events, req));
    FilteredCount(f, Window(s, w), e);
    WindowCount(s, w, e);
    SelectCount(EventsDuring(events, req), (x: Event) => x.FromRegion(region), e);
    SelectCount(events, (x: Event) => x.During(req), e);
    CountIsMultiplicity(Shown(f, events, region, req, w), e);
    CountIsMultiplicity(events, e);
  }

  lemma {:induction false} WindowOrderedIff(f: WriteEventFilters, before: CacheData, region: string, req: Period,
                                            w: Period)
    requires f.Valid() && NewestFirst(before.event)
    ensures NewestFirst(Filtered(f, Window(CachedEvents(before, region, req), w))) <==>
      TouchCount(before.period, req) <= 1 || OneTime(Shown(f, before.event, region, req, w))
  {
    BlockRepeats(f, before, region, req, w);
    ShownOrdered(f, before.event, region, req, w);
    RepeatOrdered(Shown(f, before.event, region, req, w), TouchCount(before.period, req));
  }

  /** In every window of iteration i the matching cached events of the region all have one time. */
  ghost predicate OneTimeAt(f: WriteEventFilters, before: CacheData, region: string, req: Period, md: seq<Period>, i: nat)
    requires i < |md|
  {
    && (i == 0 && Head(req, md).Some? ==> OneTime(Shown(f, before.event, region, req, Head(req, md).value)))
    && OneTime(Shown(f, before.event, region, req, Between(req, md, i)))
  }

  lemma SegmentOrderedIff(f: WriteEventFilters, before: CacheData, region: string, req: Period, lookup: Lookup, md: seq<Period>,
                          i: nat, trail: multiset<Event>)
    requires f.Valid() && NewestFirst(before.event) && i < |md|
    requires Faithful(lookup, trail, md) && Pending(before.period, req, md)
    ensures NewestFirst(Segment(f, req, CachedEvents(before, region, req), lookup, md, i)) <==>
      KeepsOrderAt(f, before, region, req, md, i)
  {
    assert Answers(Pages(lookup, md[i]), md[i], trail);
    SegmentOrder(before.period, f, req, CachedEvents(before, region, req), lookup, md, i, trail);
    WindowOrderedIff(f, before, region, req, Between(req, md, i));
    if Head(req, md).Some? {
      WindowOrderedIff(f, before, region, req, Head(req, md).value);
    }
  }

  /** The windows of iteration i print in order: each holds one copy of its events, or events of one time only. */
  ghost predicate KeepsOrderAt(f: WriteEventFilters, before: CacheData, region: string, req: Period, md: seq<Period>, i: nat)
    requires i < |md|
  {
    TouchCount(before.period, req) <= 1 || OneTimeAt(f, before, region, req, md, i)
  }

  ghost predicate KeepsOrderUpTo(f: WriteEventFilters, before: CacheData, region: string, req: Period, md: seq<Period>, n: nat)
    requires n <= |md|
  {
    n == 0 || (KeepsOrderUpTo(f, before, region, req, md, n - 1) && KeepsOrderAt(f, before, region, req, md, n - 1))
  }

  lemma {:induction false} TouchedOnceKeepsOrder(f: WriteEventFilters, before: CacheData, region: string, req: Period,
                                                 md: seq<Period>, n: nat)
    requires n <= |md| && TouchCount(before.period, req) <= 1
    ensures KeepsOrderUpTo(f, before, region, req, md, n)
  {
    if n > 0 {
      TouchedOnceKeepsOrder(f, before, region, req, md, n - 1);
    }
  }

  /** What a call that is not a full hit asks for, latest first: the pending periods, or what `DiffMultiple` returns. */
  ghost function ToAsk(c: seq<Period>, pending: seq<Period>, req: Period): seq<Period> {
    if pending == [] then Reverse(Missing(req, c)) else pending
  }

  lemma AskedIs(before: CacheData, pending: seq<Period>, lookup: Lookup, f: WriteEventFilters,
                region: string, req: Period, out: PageOutcome)
    requires Ready(before, pending, req) && PageRun(before, pending, lookup, f, region, req, out)
    requires !IsFull(before.period, pending, req)
    ensures out.asked == ToAsk(before.period, pending, req)
  {
    if pending == [] {
      FullOverlapIff(req, before.period);
      FreshIsReverse(before, lookup, f, region, req, out);
    } else {
      PartialOutcome(before, pending, lookup, f, region, req, out);
    }
  }

  /**
   The whole output of a call that is not a full hit is newest first if and only if at most one cached period touches the
   request, or no window printed from the cache holds matching events of two different times.
   */
  lemma {:induction false} PrintedNewestFirstIff(before: CacheData, pending: seq<Period>, lookup: Lookup,
                                                 f: WriteEventFilters, region: string, req: Period, out: PageOutcome,
                                                 trail: multiset<Event>)
    requires GoodCall(before, pending, lookup, f, region, req, out, trail)
    requires NewestFirst(before.event) && !IsFull(before.period, pending, req)
    ensures var md := ToAsk(before.period, pending, req);
      NewestFirst(out.printed) <==> KeepsOrderUpTo(f, before, region, req, md, |md|)
  {
    AskedNewestFirstIff(before, pending, lookup, f, region, req, out, trail);
    AskedIs(before, pending, lookup, f, region, req, out);
  }

  lemma {:induction false} AskedNewestFirstIff(before: CacheData, pending: seq<Period>, lookup: Lookup,
                                               f: WriteEventFilters, region: string, req: Period, out: PageOutcome,
                                               trail: multiset<Event>)
    requires GoodCall(before, pending, lookup, f, region, req, out, trail)
    requires NewestFirst(before.event) && !IsFull(before.period, pending, req)
    ensures NewestFirst(out.printed) <==> KeepsOrderUpTo(f, before, region, req, out.asked, |out.asked|)
  {
    var cached := CachedEvents(before, region, req);
    PartialOutcome(before, pending, lookup, f, region, req, out);
    if out.asked != [] {
      LoopOrder(before.period, f, req, cached, lookup, out.asked, |out.asked|, trail);
      SegmentsOrderedIff(f, before, region, req, lookup, out.asked, trail);
    }
  }

  ghost predicate SegmentAgrees(f: WriteEventFilters, before: CacheData, region: string, req: Period, lookup: Lookup,
                                md: seq<Period>, i: nat)
    requires i < |md|
  {
    NewestFirst(Segment(f, req, CachedEvents(before, region, req), lookup, md, i)) <==>
      KeepsOrderAt(f, before, region, req, md, i)
  }

  lemma {:induction false} SegmentsAgree(f: WriteEventFilters, before: CacheData, region: string, req: Period, lookup: Lookup,
                                         md: seq<Period>, n: nat)
    requires n <= |md| && forall i | 0 <= i < n :: SegmentAgrees(f, before, region, req, lookup, md, i)
    ensures SegmentsOrdered(f, req, CachedEvents(before, region, req), lookup, md, n) <==>
      KeepsOrderUpTo(f, before, region, req, md, n)
  {
    if n > 0 {
      SegmentsAgree(f, before, region, req, lookup, md, n - 1);
      assert SegmentAgrees(f, before, region, req, lookup, md, n - 1);
    }
  }

  lemma {:induction false} SegmentsOrderedIff(f: WriteEventFilters, before: CacheData, region: string, req: Period,
                                              lookup: Lookup, md: seq<Period>, trail: multiset<Event>)
    requires f.Valid() && NewestFirst(before.event)
    requires Faithful(lookup, trail, md) && Pending(before.period, req, md)
    ensures SegmentsOrdered(f, req, CachedEvents(before, region, req), lookup, md, |md|) <==>
      KeepsOrderUpTo(f, before, region, req, md, |md|)
  {
    forall i | 0 <= i < |md| ensures SegmentAgrees(f, before, region, req, lookup, md, i) {
      SegmentOrderedIff(f, before, region, req, lookup, md, i, trail);
    }
    SegmentsAgree(f, before, region, req, lookup, md, |md|);
  }

  /** A full hit is always printed newest first. */
  lemma FullNewestFirst(before: CacheData, lookup: Lookup, f: WriteEventFilters, region: string, req: Period, out: PageOutcome)
    requires f.Valid() && NormalForm(before.period) && req.Valid() && ContainedInOne(req, before.period)
    requires PageRun(before, [], lookup, f, region, req, out) && NewestFirst(before.event)
    ensures NewestFirst(out.printed)
  {
    FullOutcome(before, lookup, f, region, req, out);
    TouchedOnce(before.period, req);
    WindowOrderedIff(f, before, region, req, req);
  }

  /** If at most one cached period touches the request, the whole output of a call is newest first. */
  lemma {:induction false} PrintedNewestFirst(before: CacheData, pending: seq<Period>, lookup: Lookup,
                                              f: WriteEventFilters, region: string, req: Period, out: PageOutcome,
                                              trail: multiset<Event>)
    requires GoodCall(before, pending, lookup, f, region, req, out, trail)
    requires NewestFirst(before.event) && TouchCount(before.period, req) <= 1
    ensures NewestFirst(out.printed)
  {
    if IsFull(before.period, pending, req) {
      FullOverlapIff(req, before.period);
      FullNewestFirst(before, lookup, f, region, req, out);
    } else {
      TouchedOnceKeepsOrder(f, before, region, req, out.asked, |out.asked|);
      AskedNewestFirstIff(before, pending, lookup, f, region, req, out, trail);
    }
  }

  // ----- Calls that end with the process -----

  lemma {:induction false} UpToPrefix(f: WriteEventFilters, req: Period, cached: seq<Event>, lookup: Lookup, md: seq<Period>,
                                      n: nat, trail: multiset<Event>, e: Event)
    requires f.Valid() && n <= |md| && Faithful(lookup, trail, md[..n])
    ensures CountedUpTo(f, req, cached, lookup, md, n, trail[e], e, Wanted(f, e))
  {
    forall i | 0 <= i < n ensures SegmentCounted(f, req, cached, lookup, md, i, trail[e], e, Wanted(f, e)) {
      assert md[..n][i] == md[i];
      assert Answers(Pages(lookup, md[i]), md[i], trail);
      SegmentCount(f, req, cached, lookup, md, i, trail, e);
    }
    SegmentsAddUp(f, req, cached, lookup, md, n, trail[e], e, Wanted(f, e));
  }

  /**
   What a call shows that stops at missing period n: of the window before the first one, if it stops there, the cached events;
   otherwise everything later than the period it stops at that is cached or was fetched before.
   */
  ghost predicate StopShows(req: Period, md: seq<Period>, n: nat, e: Event, cached: bool)
    requires n < |md|
  {
    if n == 0 then cached && Head(req, md).Some? && e.During(Head(req, md).value)
    else e.time.Some? && e.time.value > md[n].endTime && (cached || e.DuringAny(md[..n]))
  }

  lemma LaterThanStop(c: seq<Period>, req: Period, md: seq<Period>, n: nat, e: Event)
    requires Pending(c, req, md) && 0 < n < |md|
    ensures e.DuringAny(md[..n]) <==> e.DuringAny(md) && e.time.value > md[n].endTime
    ensures e.DuringAny(md) && !e.DuringAny(md[..n]) ==> e.time.value < md[0].startTime
  {
    if e.DuringAny(md[..n]) {
      var j :| 0 <= j < n && md[..n][j].Contains(e.time.value);
      assert md[j].Contains(e.time.value) && md[n].endTime + 1 < md[j].startTime;
    }
    if e.DuringAny(md) {
      var j :| 0 <= j < |md| && md[j].Contains(e.time.value);
      if j < n {
        assert md[..n][j].Contains(e.time.value);
      } else {
        assert md[j].endTime <= md[n].endTime;
        assert md[n].endTime + 1 < md[0].startTime;
      }
    }
  }

  /** What the first n iterations print of an event of the trail: something exactly if the stop shows it. */
  lemma {:induction false} StoppedShares(c: seq<Period>, req: Period, md: seq<Period>, n: nat, e: Event, k: nat,
                                         copies: nat)
    requires Pending(c, req, md) && 0 < n < |md| && e.During(req) && copies > 0
    ensures CachedShares(req, md, n, e, k) + FetchedShares(md, n, e, copies) > 0 <==> StopShows(req, md, n, e, k > 0)
  {
    FetchedOnce(c, req, md, n, e, copies);
    LaterThanStop(c, req, md, n, e);
    if e.DuringAny(md) {
      AskedShares(c, req, md, n, e, k);
      assert md[0].Valid();
    } else {
      WindowsOnce(c, req, md, n, e, k);
    }
  }

  lemma {:induction false} NoShares(c: seq<Period>, req: Period, md: seq<Period>, n: nat, e: Event, copies: nat)
    requires Pending(c, req, md) && n <= |md| && (copies == 0 || !e.During(req))
    ensures CachedShares(req, md, n, e, 0) + FetchedShares(md, n, e, copies) == 0
  {
    NothingCached(req, md, n, e);
    FetchedOnce(c, req, md, n, e, copies);
    if e.DuringAny(md[..n]) {
      var j :| 0 <= j < |md[..n]| && md[..n][j].Contains(e.time.value);
      assert md[j].Within(req);
    }
  }

  lemma StoppedIs(before: CacheData, pending: seq<Period>, lookup: Lookup, f: WriteEventFilters,
                  region: string, req: Period, stop: PageStop)
    requires Ready(before, pending, req) && PageStopped(before, pending, lookup, f, region, req, stop)
    ensures stop.order == ToAsk(before.period, pending, req) && Pending(before.period, req, stop.order)
  {
    if pending == [] {
      FreshPending(before.period, req, stop.order);
    } else {
      StrictSortUnique(pending, stop.order);
    }
  }

  /** A call that ends asks for every period it has to ask for, latest first. */
  lemma EndedAsks(before: CacheData, pending: seq<Period>, lookup: Lookup, f: WriteEventFilters,
                  region: string, req: Period, out: PageOutcome)
    requires Ready(before, pending, req) && PageRun(before, pending, lookup, f, region, req, out)
    ensures out.asked == if pending == [] && ContainedInOne(req, before.period) then [] else ToAsk(before.period, pending, req)
  {
    FullOverlapIff(req, before.period);
    if !IsFull(before.period, pending, req) {
      AskedIs(before, pending, lookup, f, region, req, out);
    }
  }

  /** One that stops asks for them as far as the first answer with an error. */
  lemma StoppedAsks(before: CacheData, pending: seq<Period>, lookup: Lookup, f: WriteEventFilters,
                    region: string, req: Period, stop: PageStop)
    requires Ready(before, pending, req) && PageStopped(before, pending, lookup, f, region, req, stop)
    ensures stop.asked != [] && stop.asked <= ToAsk(before.period, pending, req)
    ensures AllArrive(lookup, stop.asked[..|stop.asked| - 1]) && !AllArrive(lookup, stop.asked)
  {
    StoppedIs(before, pending, lookup, f, region, req, stop);
    FailsAt(lookup, stop.order, stop.at);
  }

  lemma {:induction false} FailsAt(lookup: Lookup, md: seq<Period>, n: nat)
    requires n < |md| && NoneFails(lookup, md, n) && Fails(Pages(lookup, md[n]))
    ensures AllArrive(lookup, md[..n + 1][..n]) && !AllArrive(lookup, md[..n + 1])
  {
    var asked := md[..n + 1];
    AllArriveIff(lookup, asked[..n]);
    AllArriveIff(lookup, asked);
    assert asked[n] == md[n];
  }

  /** What the first n iterations print of an event that is cached k times and fetched `copies` times. */
  ghost function Shares(req: Period, md: seq<Period>, n: nat, e: Event, k: nat, copies: nat): nat
    requires n <= |md|
  {
    CachedShares(req, md, n, e, k) + FetchedShares(md, n, e, copies)
  }

  lemma SharesIff(c: seq<Period>, req: Period, md: seq<Period>, n: nat, e: Event, k: nat, copies: nat)
    requires Pending(c, req, md) && 0 < n < |md| && (k > 0 ==> copies > 0 && e.During(req))
    ensures Shares(req, md, n, e, k, copies) > 0 <==> copies > 0 && e.During(req) && StopShows(req, md, n, e, k > 0)
  {
    if e.During(req) && copies > 0 {
      StoppedShares(c, req, md, n, e, k, copies);
    } else {
      NoShares(c, req, md, n, e, copies);
    }
  }

  lemma {:induction false} SharesPrinted(before: CacheData, lookup: Lookup, f: WriteEventFilters, region: string,
                                         req: Period, md: seq<Period>, n: nat, trail: multiset<Event>, e: Event)
    requires f.Valid() && n <= |md| && Faithful(lookup, trail, md[..n])
    ensures e in PrintedUpTo(f, req, CachedEvents(before, region, req), lookup, md, n) <==>
      Wanted(f, e) && Shares(req, md, n, e, Count(CachedEvents(before, region, req), e), trail[e]) > 0
  {
    var cached := CachedEvents(before, region, req);
    CountIsMultiplicity(PrintedUpTo(f, req, cached, lookup, md, n), e);
    UpToPrefix(f, req, cached, lookup, md, n, trail, e);
  }

  /** The cache yields nothing but trail events of the window. */
  lemma {:induction false} YieldsTrail(before: CacheData, region: string, req: Period, trail: multiset<Event>, e: Event)
    requires RegionTrue(before, trail, region) && TrailOf(trail, region)
    ensures Count(CachedEvents(before, region, req), e) > 0 ==> trail[e] > 0 && e.During(req)
    ensures trail[e] > 0 && e.During(req) ==> (Count(CachedEvents(before, region, req), e) > 0) == (e in before.event)
  {
    CachedIff(before, region, req, trail, e);
    assert TrueFor(before, trail, region, e);
    assert trail[e] > 0 <==> e in trail;
  }

  lemma {:induction false} StoppedCount(before: CacheData, lookup: Lookup, f: WriteEventFilters, region: string,
                                        req: Period, md: seq<Period>, n: nat, trail: multiset<Event>, e: Event)
    requires f.Valid() && 0 < n < |md| && Pending(before.period, req, md) && Faithful(lookup, trail, md[..n])
    requires TrailOf(trail, region) && RegionTrue(before, trail, region)
    ensures e in PrintedUpTo(f, req, CachedEvents(before, region, req), lookup, md, n) <==>
      Due(f, req, trail, e) && StopShows(req, md, n, e, e in before.event)
  {
    SharesPrinted(before, lookup, f, region, req, md, n, trail, e);
    YieldsTrail(before, region, req, trail, e);
    SharesIff(before.period, req, md, n, e, Count(CachedEvents(before, region, req), e), trail[e]);
  }

  lemma StoppedHead(before: CacheData, f: WriteEventFilters, region: string, req: Period, md: seq<Period>,
                    trail: multiset<Event>, e: Event)
    requires f.Valid() && md != [] && TrailOf(trail, region) && RegionTrue(before, trail, region)
    ensures e in PrintHead(f, req, CachedEvents(before, region, req), md) <==>
      Due(f, req, trail, e) && StopShows(req, md, 0, e, e in before.event)
  {
    var cached := CachedEvents(before, region, req);
    CachedIff(before, region, req, trail, e);
    assert TrueFor(before, trail, region, e);
    PrintHeadCount(f, req, cached, md, e);
    CountIsMultiplicity(PrintHead(f, req, cached, md), e);
  }

  /** Exactly what a call has printed that the process does not survive. */
  lemma StoppedPrintedIff(before: CacheData, pending: seq<Period>, lookup: Lookup, f: WriteEventFilters,
                          region: string, req: Period, stop: PageStop, trail: multiset<Event>, e: Event)
    requires f.Valid() && Ready(before, pending, req) && TrailOf(trail, region) && RegionTrue(before, trail, region)
    requires PageStopped(before, pending, lookup, f, region, req, stop)
    requires Faithful(lookup, trail, stop.order[..stop.at])
    ensures stop.order == ToAsk(before.period, pending, req) && stop.at < |stop.order|
    ensures e in stop.printed <==> Due(f, req, trail, e) && StopShows(req, stop.order, stop.at, e, e in before.event)
  {
    StoppedIs(before, pending, lookup, f, region, req, stop);
    if stop.at == 0 {
      StoppedHead(before, f, region, req, stop.order, trail, e);
      assert stop.printed == [] + PrintHead(f, req, CachedEvents(before, region, req), stop.order);
    } else {
      StoppedCount(before, lookup, f, region, req, stop.order, stop.at, trail, e);
    }
  }

  // ----- Requests whose start is after their end -----

  lemma InvertedSaved(before: CacheData, req: Period, added: CacheData, after: CacheData)
    requires NormalForm(before.period) && !req.Valid() && !Touches(req, before.period)
    requires added.period == [req] && Saved(before, added, after)
    ensures req in after.period && Permutation(after.period, before.period + [req])
  {
    var all := before.period + [req];
    var ps: seq<Period> :| SortOf(ps, all, StartsBefore) && after.period == Merged(ps);
    assert all[|all| - 1] == req;
    forall i | 0 <= i < |ps| - 1 ensures !ps[i].Overlap(ps[i + 1]) {
      SortedApart(before.period, req, ps, i);
    }
    MergedUnchanged(ps, 1);
    PermutationContains(ps, all, req);
  }

  /** Two places of the sorted list hold periods that do not touch. */
  lemma SortedApart(c: seq<Period>, req: Period, ps: seq<Period>, i: nat)
    requires NormalForm(c) && !req.Valid() && !Touches(req, c)
    requires Permutation(ps, c + [req]) && i < |ps| - 1
    ensures !ps[i].Overlap(ps[i + 1])
  {
    var all := c + [req];
    PermutationContains(ps, all, ps[i]);
    PermutationContains(ps, all, ps[i + 1]);
    var x :| 0 <= x < |all| && all[x] == ps[i];
    var y :| 0 <= y < |all| && all[y] == ps[i + 1];
    if ps[i] == ps[i + 1] {
      TwicePlaced(ps, i);
      OncePlaced(c, req, ps[i]);
      assert false;
    }
    assert x != y;
  }

  lemma {:induction false} TwicePlaced(ps: seq<Period>, i: nat)
    requires i < |ps| - 1 && ps[i] == ps[i + 1]
    ensures Count(ps, ps[i]) >= 2
  {
    var p := ps[i];
    assert ps == ps[..i] + [p, p] + ps[i + 2..];
    CountConcat(ps[..i] + [p, p], ps[i + 2..], p);
    CountConcat(ps[..i], [p, p], p);
    CountConcat([p], [p], p);
    assert [p][..0] == [] && [p] + [p] == [p, p];
    assert Count([p], p) == 1 && Count([p, p], p) == 2;
  }

  lemma {:induction false} CountDistinct(c: seq<Period>, p: Period)
    requires NormalForm(c)
    ensures Count(c, p) <= 1
  {
    if c != [] {
      var front := c[..|c| - 1];
      CountDistinct(front, p);
      CountIsMultiplicity(front, p);
    }
  }

  lemma {:induction false} OncePlaced(c: seq<Period>, req: Period, p: Period)
    requires NormalForm(c) && !req.Valid()
    ensures Count(c + [req], p) <= 1
  {
    CountConcat(c, [req], p);
    assert [req][..0] == [];
    CountDistinct(c, p);
    CountIsMultiplicity(c, p);
  }

  /**
   A request whose start is after its end. If any cached period touches it, it counts as a full hit: nothing is asked for or
   printed and the cached periods stay. Otherwise the API is asked for it, and if that ends it is recorded as it is, so the
   saved cache is no normal form any more.
   */
  lemma InvertedRequest(before: CacheData, lookup: Lookup, f: WriteEventFilters, region: string, req: Period, out: PageOutcome)
    requires f.Valid() && NormalForm(before.period) && !req.Valid() && PageRun(before, [], lookup, f, region, req, out)
    ensures NormalForm(out.cache.period) <==> Touches(req, before.period)
    ensures Touches(req, before.period) ==> out.asked == [] && out.printed == [] && out.cache.period == before.period
    ensures !Touches(req, before.period) ==> out.asked == [req] && req in out.cache.period
  {
    InvertedAnswer(req, before.period);
    SingleOrder(req, out.order);
    if Touches(req, before.period) {
      NothingAdded(before, out.cache);
      InvertedWindow(f, CachedEvents(before, region, req), req);
    } else {
      assert RecordedUpTo([req], 0) == [] && RecordedUpTo([req], 1) == [Recorded([req], 0)];
      InvertedSaved(before, req, CacheData([req], FetchedUpTo(lookup, [req], 1)), out.cache);
    }
  }

  lemma SingleOrder(p: Period, order: seq<Period>)
    requires SortOf(order, [p], StartsAfter)
    ensures order == [p]
  {
    StrictSortUnique([p], order);
  }

  lemma InvertedWindow(f: WriteEventFilters, cached: seq<Event>, req: Period)
    requires f.Valid() && !req.Valid()
    ensures Filtered(f, Window(cached, req)) == []
  {
    var s := Filtered(f, Window(cached, req));
    if s != [] {
      var e := s[0];
      assert e in s;
      FilteredWindow(f, cached, req);
      assert false;
    }
  }
}
