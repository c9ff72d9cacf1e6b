/**
 Whole runs of the command: the cluster's region first, then us-east-1 with the missing periods carried over. The trail is
 fixed; requests, filters and the orders in which sorts leave ties are arbitrary.
 */
module RunTheorems {
  import opened Wrappers
  import opened Periods
  import opened MissingPeriods
  import opened Events
  import opened Filters
  import opened Selection
  import opened EventCache
  import opened Sorting
  import opened WriteEvents
  import opened PageTheorems
  import opened CacheTheorems

  /** The events of the cluster's region and of us-east-1, which may be the same region. */
  datatype Trail = Trail(home: multiset<Event>, default: multiset<Event>)

  ghost predicate GoodTrail(trail: Trail, home: string) {
    && TrailOf(trail.home, home)
    && TrailOf(trail.default, DEFAULT_REGION)
    && (home == DEFAULT_REGION ==> trail.home == trail.default)
  }

  ghost predicate OnlyQueried(d: CacheData, home: string) {
    forall e | e in d.event :: e.FromRegion(home) || e.FromRegion(DEFAULT_REGION)
  }

  /** Cached events are exactly the trail events of the queried regions in covered seconds, as a set. */
  ghost predicate Sound(d: CacheData, trail: Trail, home: string) {
    && NormalForm(d.period)
    && OnlyQueried(d, home)
    && RegionSound(d, trail.home, home, [])
    && RegionSound(d, trail.default, DEFAULT_REGION, [])
  }

  /** Between the two calls of a run: the second region still lacks the pending periods. */
  ghost predicate SoundPending(d: CacheData, trail: Trail, home: string, pending: seq<Period>) {
    && NormalForm(d.period)
    && OnlyQueried(d, home)
    && RegionSound(d, trail.home, home, [])
    && RegionSound(d, trail.default, DEFAULT_REGION, pending)
  }

  /** Cached events are exactly the trail events of the queried regions in covered seconds, with their multiplicities. */
  ghost predicate Exact(d: CacheData, trail: Trail, home: string) {
    && NormalForm(d.period)
    && OnlyQueried(d, home)
    && RegionExact(d, trail.home, home, [])
    && RegionExact(d, trail.default, DEFAULT_REGION, [])
  }

  // ----- How one call changes what is known of each region -----

  lemma {:induction false} InAfter(before: CacheData, asked: seq<Period>, trail: multiset<Event>, after: CacheData,
                                   e: Event)
    requires Grows(before, asked, trail, after)
    ensures e in after.event <==> e in before.event || (e.DuringAny(asked) && e in trail)
    ensures e.DuringAny(after.period) <==> e.DuringAny(before.period) || e.DuringAny(asked)
    ensures Count(after.event, e) == Count(before.event, e) + (if e.DuringAny(asked) then trail[e] else 0)
  {
    CountIsMultiplicity(before.event, e);
    CountIsMultiplicity(after.event, e);
  }

  ghost predicate CoveredBy(inner: seq<Period>, outer: seq<Period>) {
    forall t | Covered(inner, t) :: Covered(outer, t)
  }

  /** The region that is queried becomes sound, also where it lacked events before. */
  lemma QueriedRegion(before: CacheData, asked: seq<Period>, trail: multiset<Event>, after: CacheData, region: string,
                      except: seq<Period>)
    requires Grows(before, asked, trail, after) && RegionSound(before, trail, region, except) && CoveredBy(except, asked)
    ensures RegionSound(after, trail, region, [])
  {
    forall e: Event ensures SoundFor(after, trail, region, [], e) {
      assert SoundFor(before, trail, region, except, e);
      InAfter(before, asked, trail, after, e);
    }
  }

  /** Any other region keeps its events, and lacks at most those of the seconds newly covered. */
  lemma OtherRegion(before: CacheData, asked: seq<Period>, trail: multiset<Event>, after: CacheData, region: string,
                    other: string, otherTrail: multiset<Event>)
    requires Grows(before, asked, trail, after) && TrailOf(trail, region) && region != other
    requires RegionSound(before, otherTrail, other, [])
    ensures RegionSound(after, otherTrail, other, asked)
    ensures CoveredBy(asked, before.period) ==> RegionSound(after, otherTrail, other, [])
  {
    forall e: Event
      ensures SoundFor(after, otherTrail, other, asked, e)
      ensures CoveredBy(asked, before.period) ==> SoundFor(after, otherTrail, other, [], e)
    {
      assert SoundFor(before, otherTrail, other, [], e);
      InAfter(before, asked, trail, after, e);
    }
  }

  lemma StillQueried(before: CacheData, asked: seq<Period>, trail: multiset<Event>, after: CacheData, region: string, home: string)
    requires Grows(before, asked, trail, after) && TrailOf(trail, region) && OnlyQueried(before, home)
    requires region == home || region == DEFAULT_REGION
    ensures OnlyQueried(after, home)
  {
    forall e | e in after.event ensures e.FromRegion(home) || e.FromRegion(DEFAULT_REGION) {
      InAfter(before, asked, trail, after, e);
    }
  }

  // ----- One run -----

  datatype RunRecord = RunRecord(
    filters: WriteEventFilters, req: Period, homeLookup: Lookup, defaultLookup: Lookup, first: PageOutcome, second: PageOutcome)

  /** A completed, error-free run of a fresh process on the given cache. */
  ghost predicate GoodRun(before: CacheData, r: RunRecord, home: string, trail: Trail) {
    && r.filters.Valid() && r.req.Valid()
    && Faithful(r.homeLookup, trail.home, r.first.asked)
    && Faithful(r.defaultLookup, trail.default, r.second.asked)
    && FullRun(before, [], r.homeLookup, r.defaultLookup, r.filters, home, r.req, r.first, r.second)
  }

  lemma FirstCall(before: CacheData, r: RunRecord, home: string, trail: Trail)
    requires GoodTrail(trail, home) && NormalForm(before.period) && GoodRun(before, r, home, trail)
    ensures GoodCall(before, [], r.homeLookup, r.filters, home, r.req, r.first, trail.home)
    ensures Grows(before, r.first.asked, trail.home, r.first.cache)
    ensures r.first.missing == r.first.asked && Pending(r.first.cache.period, r.req, r.first.missing)
  {
    PageGrows(before, [], r.homeLookup, r.filters, home, r.req, r.first, trail.home);
  }

  /** The second call asks for exactly what the first asked for. */
  lemma SecondCall(before: CacheData, r: RunRecord, home: string, trail: Trail)
    requires GoodTrail(trail, home) && NormalForm(before.period) && GoodRun(before, r, home, trail)
    requires home != DEFAULT_REGION
    ensures GoodCall(r.first.cache, r.first.missing, r.defaultLookup, r.filters, DEFAULT_REGION, r.req, r.second,
                     trail.default)
    ensures Grows(r.first.cache, r.second.asked, trail.default, r.second.cache)
    ensures r.second.asked == r.first.asked
    ensures r.first.asked == [] ==> r.first.cache.period == before.period
  {
    FirstCall(before, r, home, trail);
    var mid := r.first.cache;
    PageGrows(mid, r.first.missing, r.defaultLookup, r.filters, DEFAULT_REGION, r.req, r.second, trail.default);
    if r.first.asked == [] {
      SamePeriods(before, mid, trail.home);
      NothingAskedTwice(before, r.homeLookup, r.filters, home, r.req, r.first);
      NothingAskedTwice(mid, r.defaultLookup, r.filters, DEFAULT_REGION, r.req, r.second);
    } else {
      OrderPending(mid, r.first.missing, r.defaultLookup, r.filters, DEFAULT_REGION, r.req, r.second);
    }
  }

  lemma SamePeriods(before: CacheData, after: CacheData, trail: multiset<Event>)
    requires NormalForm(before.period) && Grows(before, [], trail, after)
    ensures after.period == before.period
  {
    NormalFormUnique(before.period, after.period);
  }

  /** A fresh call asks for nothing exactly on a full hit or when DiffMultiple comes back empty. */
  lemma NothingAskedTwice(before: CacheData, lookup: Lookup, f: WriteEventFilters, region: string, req: Period, out: PageOutcome)
    requires NormalForm(before.period) && req.Valid() && PageRun(before, [], lookup, f, region, req, out)
    ensures out.asked == [] <==> ContainedInOne(req, before.period) || Missing(req, before.period) == []
  {
    FullOverlapIff(req, before.period);
    OrderPending(before, [], lookup, f, region, req, out);
  }

  /** A run takes a sound cache to a sound cache; in between, the second region lacks at most the pending periods. */
  lemma RunSound(before: CacheData, r: RunRecord, home: string, trail: Trail)
    requires GoodTrail(trail, home) && Sound(before, trail, home) && GoodRun(before, r, home, trail)
    ensures Sound(r.second.cache, trail, home)
    ensures home != DEFAULT_REGION ==> SoundPending(r.first.cache, trail, home, r.first.missing)
  {
    FirstCall(before, r, home, trail);
    var mid := r.first.cache;
    QueriedRegion(before, r.first.asked, trail.home, mid, home, []);
    StillQueried(before, r.first.asked, trail.home, mid, home, home);
    if home != DEFAULT_REGION {
      OtherRegion(before, r.first.asked, trail.home, mid, home, DEFAULT_REGION, trail.default);
      SecondCall(before, r, home, trail);
      var after := r.second.cache;
      QueriedRegion(mid, r.second.asked, trail.default, after, DEFAULT_REGION, r.first.asked);
      StillQueried(mid, r.second.asked, trail.default, after, DEFAULT_REGION, home);
      OtherRegion(mid, r.second.asked, trail.default, after, DEFAULT_REGION, home, trail.home);
    }
  }

  /** What a whole run adds to the coverage: the seconds DiffMultiple returns for the cache the run found. */
  lemma RunCovers(before: CacheData, r: RunRecord, home: string, trail: Trail, t: int)
    requires GoodTrail(trail, home) && NormalForm(before.period) && GoodRun(before, r, home, trail)
    ensures Covered(r.second.cache.period, t) <==> Covered(before.period, t) || Covered(Missing(r.req, before.period), t)
  {
    FirstCall(before, r, home, trail);
    if home != DEFAULT_REGION {
      SecondCall(before, r, home, trail);
    }
    if ContainedInOne(r.req, before.period) {
      NothingAskedTwice(before, r.homeLookup, r.filters, home, r.req, r.first);
      FullOverlapIff(r.req, before.period);
      WindowInOnePeriod(before.period, r.req);
      SinglePiece(r.req, t);
      FullOutcome(before, r.homeLookup, r.filters, home, r.req, r.first);
    } else {
      FreshAsked(before, r.homeLookup, r.filters, home, r.req, r.first);
    }
  }

  // ----- What a run prints -----

  lemma SecondPrinted(before: CacheData, r: RunRecord, home: string, trail: Trail, e: Event)
    requires GoodTrail(trail, home) && Sound(before, trail, home) && GoodRun(before, r, home, trail)
    requires home != DEFAULT_REGION
    ensures e in r.second.printed <==>
      && Due(r.filters, r.req, trail.default, e)
      && Missing(r.req, before.period) != [] && !Lost(r.req, before.period, e.time.value)
  {
    RunSound(before, r, home, trail);
    FirstCall(before, r, home, trail);
    SecondCall(before, r, home, trail);
    var mid, lookup := r.first.cache, r.defaultLookup;
    if r.first.missing == [] {
      PrintedIff(mid, lookup, r.filters, DEFAULT_REGION, r.req, r.second, trail.default, e);
    } else {
      PartialHit(mid, r.first.missing, lookup, r.filters, DEFAULT_REGION, r.req, r.second, trail.default, e);
      NothingAskedTwice(before, r.homeLookup, r.filters, home, r.req, r.first);
      FreshAsked(before, r.homeLookup, r.filters, home, r.req, r.first);
      if e.During(r.req) {
        CoverageUpToLost(r.req, before.period, e.time.value);
      }
    }
  }

  /**
   Exactly what a run prints from a sound cache, whatever the filters of earlier runs: of each region, every event that
   matches, lies in the window and is not in a lost second - provided DiffMultiple returned anything at all.
   */
  lemma RunPrintedIff(before: CacheData, r: RunRecord, home: string, trail: Trail, e: Event)
    requires GoodTrail(trail, home) && Sound(before, trail, home) && GoodRun(before, r, home, trail)
    ensures e in r.first.printed <==>
      && Due(r.filters, r.req, trail.home, e)
      && Missing(r.req, before.period) != [] && !Lost(r.req, before.period, e.time.value)
    ensures e in r.second.printed <==>
      && home != DEFAULT_REGION && Due(r.filters, r.req, trail.default, e)
      && Missing(r.req, before.period) != [] && !Lost(r.req, before.period, e.time.value)
  {
    FirstCall(before, r, home, trail);
    PrintedIff(before, r.homeLookup, r.filters, home, r.req, r.first, trail.home, e);
    if home != DEFAULT_REGION {
      SecondPrinted(before, r, home, trail, e);
    }
  }

  // ----- Conservation -----

  /** The seconds asked for are not cached: nothing is fetched a second time. */
  lemma FreshUncached(before: CacheData, r: RunRecord, home: string, trail: Trail)
    requires NormalForm(before.period) && GoodTrail(trail, home) && GoodRun(before, r, home, trail)
    requires !RefetchesSome(r.req, before.period)
    ensures forall t | Covered(r.first.asked, t) :: !Covered(before.period, t)
  {
    FirstCall(before, r, home, trail);
    if ContainedInOne(r.req, before.period) {
      FullOutcome(before, r.homeLookup, r.filters, home, r.req, r.first);
    } else {
      FreshAsked(before, r.homeLookup, r.filters, home, r.req, r.first);
      RefetchesSomeIff(r.req, before.period);
    }
  }

  lemma QueriedExact(before: CacheData, asked: seq<Period>, trail: multiset<Event>, after: CacheData, region: string,
                     except: seq<Period>)
    requires Grows(before, asked, trail, after) && RegionExact(before, trail, region, except)
    requires CoveredBy(except, asked)
    requires forall t | Covered(asked, t) :: !Covered(before.period, t) || Covered(except, t)
    ensures RegionExact(after, trail, region, [])
  {
    forall e: Event ensures ExactFor(after, trail, region, [], e) {
      assert ExactFor(before, trail, region, except, e);
      InAfter(before, asked, trail, after, e);
    }
  }

  lemma OtherExact(before: CacheData, asked: seq<Period>, trail: multiset<Event>, after: CacheData, region: string,
                   other: string, otherTrail: multiset<Event>)
    requires Grows(before, asked, trail, after) && TrailOf(trail, region) && region != other
    requires RegionExact(before, otherTrail, other, [])
    ensures CoveredBy(asked, before.period) ==> RegionExact(after, otherTrail, other, [])
    ensures (forall t | Covered(asked, t) :: !Covered(before.period, t)) ==> RegionExact(after, otherTrail, other, asked)
  {
    forall e: Event
      ensures CoveredBy(asked, before.period) ==> ExactFor(after, otherTrail, other, [], e)
      ensures (forall t | Covered(asked, t) :: !Covered(before.period, t)) ==> ExactFor(after, otherTrail, other, asked, e)
    {
      assert ExactFor(before, otherTrail, other, [], e);
      InAfter(before, asked, trail, after, e);
      assert e.FromRegion(other) ==> trail[e] == 0;
    }
  }

  /** A run that meets no cache of the refetching shape stores nothing twice. */
  lemma RunExact(before: CacheData, r: RunRecord, home: string, trail: Trail)
    requires GoodTrail(trail, home) && Exact(before, trail, home) && GoodRun(before, r, home, trail)
    requires !RefetchesSome(r.req, before.period)
    ensures Exact(r.second.cache, trail, home)
    ensures home != DEFAULT_REGION ==> RegionExact(r.first.cache, trail.default, DEFAULT_REGION, r.first.missing)
  {
    FirstCall(before, r, home, trail);
    FreshUncached(before, r, home, trail);
    var mid := r.first.cache;
    QueriedExact(before, r.first.asked, trail.home, mid, home, []);
    StillQueried(before, r.first.asked, trail.home, mid, home, home);
    if home != DEFAULT_REGION {
      OtherExact(before, r.first.asked, trail.home, mid, home, DEFAULT_REGION, trail.default);
      SecondCall(before, r, home, trail);
      var after := r.second.cache;
      QueriedExact(mid, r.second.asked, trail.default, after, DEFAULT_REGION, r.first.asked);
      StillQueried(mid, r.second.asked, trail.default, after, DEFAULT_REGION, home);
      OtherExact(mid, r.second.asked, trail.default, after, DEFAULT_REGION, home, trail.home);
    }
  }

  lemma ExactIsSound(d: CacheData, trail: Trail, home: string)
    requires Exact(d, trail, home)
    ensures Sound(d, trail, home)
  {
    forall e: Event
      ensures SoundFor(d, trail.home, home, [], e)
      ensures SoundFor(d, trail.default, DEFAULT_REGION, [], e)
    {
      assert ExactFor(d, trail.home, home, [], e) && ExactFor(d, trail.default, DEFAULT_REGION, [], e);
      CountIsMultiplicity(d.event, e);
    }
  }

  // ----- The second region -----

  lemma {:induction false} MidCopies(before: CacheData, r: RunRecord, home: string, trail: Trail, e: Event)
    requires GoodTrail(trail, home) && NormalForm(before.period) && GoodRun(before, r, home, trail)
    requires home != DEFAULT_REGION && e.FromRegion(DEFAULT_REGION)
    ensures Count(r.first.cache.event, e) == Count(before.event, e)
  {
    FirstCall(before, r, home, trail);
    InAfter(before, r.first.asked, trail.home, r.first.cache, e);
    assert e !in trail.home ==> trail.home[e] == 0;
  }

  /** What the second call asks for, for a request that the cache does not contain. */
  lemma SecondAsked(before: CacheData, r: RunRecord, home: string, trail: Trail)
    requires GoodTrail(trail, home) && NormalForm(before.period) && GoodRun(before, r, home, trail)
    requires home != DEFAULT_REGION && !ContainedInOne(r.req, before.period)
    ensures r.second.asked == Reverse(Missing(r.req, before.period))
    ensures !IsFull(r.first.cache.period, r.first.missing, r.req)
  {
    FirstCall(before, r, home, trail);
    SecondCall(before, r, home, trail);
    FreshIsReverse(before, r.homeLookup, r.filters, home, r.req, r.first);
    if r.first.asked == [] {
      FullOverlapIff(r.req, before.period);
    }
  }

  /** How often the second call prints a due event: as the first would, but by the periods the first call left. */
  lemma {:induction false} SecondTimes(before: CacheData, r: RunRecord, home: string, trail: Trail, e: Event)
    requires GoodTrail(trail, home) && Exact(before, trail, home) && GoodRun(before, r, home, trail)
    requires home != DEFAULT_REGION && !ContainedInOne(r.req, before.period) && Due(r.filters, r.req, trail.default, e)
    ensures Count(r.second.printed, e) ==
      FreshCopies(r.req, before.period, e, trail.default[e], CachedCopies(r.first.cache, r.req, e))
  {
    SecondCall(before, r, home, trail);
    SecondAsked(before, r, home, trail);
    MidCopies(before, r, home, trail, e);
    PrintedTimes(r.first.cache, r.first.missing, r.defaultLookup, r.filters, DEFAULT_REGION, r.req, r.second, trail.default, e);
    CopiesReversed(r.req, Missing(r.req, before.period), e, trail.default[e], CachedCopies(r.first.cache, r.req, e));
    SecondCase(before, r.first.cache, r.req, trail.default, e);
  }

  lemma {:induction false} SecondCase(before: CacheData, mid: CacheData, req: Period, trail: multiset<Event>, e: Event)
    requires NormalForm(before.period) && req.Valid() && !ContainedInOne(req, before.period)
    requires RegionExact(before, trail, DEFAULT_REGION, []) && TrailOf(trail, DEFAULT_REGION) && e in trail && e.During(req)
    requires Count(mid.event, e) == Count(before.event, e)
    ensures var cached := CachedCopies(mid, req, e);
      FreshCopies(req, before.period, e, trail[e], cached) == AskedCopies(req, Missing(req, before.period), e, trail[e], cached)
  {
    ExactCopies(before, DEFAULT_REGION, trail, e);
    CopiesByCase(req, before.period, e, trail[e], CachedCopies(mid, req, e));
  }

  lemma {:induction false} SecondNotDue(before: CacheData, r: RunRecord, home: string, trail: Trail, e: Event)
    requires GoodTrail(trail, home) && Exact(before, trail, home) && GoodRun(before, r, home, trail)
    requires home != DEFAULT_REGION && !Due(r.filters, r.req, trail.default, e)
    ensures Count(r.second.printed, e) == 0
  {
    ExactIsSound(before, trail, home);
    SecondPrinted(before, r, home, trail, e);
    CountIsMultiplicity(r.second.printed, e);
  }

  /**
   For every valid request that is not a full hit, from an exact cache: the second call prints each due event exactly once if
   and only if every second that holds one is of the kind `OnceAt`, by the number of cached periods the first call left
   touching the request.
   */
  lemma SecondRegionOnceIff(before: CacheData, r: RunRecord, home: string, trail: Trail)
    requires GoodTrail(trail, home) && Exact(before, trail, home) && GoodRun(before, r, home, trail)
    requires home != DEFAULT_REGION && !ContainedInOne(r.req, before.period)
    ensures PrintsOnce(r.filters, r.req, r.second, trail.default) <==>
      OnceThroughout(r.filters, r.req, before.period, TouchCount(r.first.cache.period, r.req), trail.default)
  {
    forall e: Event
      ensures Count(r.second.printed, e) == (if Due(r.filters, r.req, trail.default, e) then trail.default[e] else 0) <==>
        (Due(r.filters, r.req, trail.default, e) ==>
          OnceAt(r.req, before.period, TouchCount(r.first.cache.period, r.req), e.time.value))
    {
      if Due(r.filters, r.req, trail.default, e) {
        SecondTimes(before, r, home, trail, e);
        SecondOnceAt(before, r, home, trail, e);
      } else {
        SecondNotDue(before, r, home, trail, e);
      }
    }
  }

  lemma SecondOnceAt(before: CacheData, r: RunRecord, home: string, trail: Trail, e: Event)
    requires GoodTrail(trail, home) && Exact(before, trail, home) && GoodRun(before, r, home, trail)
    requires home != DEFAULT_REGION && !ContainedInOne(r.req, before.period) && Due(r.filters, r.req, trail.default, e)
    ensures FreshCopies(r.req, before.period, e, trail.default[e], CachedCopies(r.first.cache, r.req, e)) == trail.default[e] <==>
      OnceAt(r.req, before.period, TouchCount(r.first.cache.period, r.req), e.time.value)
  {
    MidCopies(before, r, home, trail, e);
    ExactCopies(before, DEFAULT_REGION, trail.default, e);
    FirstCall(before, r, home, trail);
    OnceIff(TouchCount(r.first.cache.period, r.req), trail.default[e]);
    if e.DuringAny(before.period) {
      CachedTouches(r.first.cache.period, r.req, e);
    }
  }

  /**
   After a first call that lost no second, the whole request lies in one cached period: however many cached periods the first
   call met, the second region's output is newest first, and it holds every due event exactly once unless the request's
   first second was cached, is fetched again and holds one.
   */
  lemma SecondRegionOnce(before: CacheData, r: RunRecord, home: string, trail: Trail)
    requires GoodTrail(trail, home) && Exact(before, trail, home) && GoodRun(before, r, home, trail)
    requires home != DEFAULT_REGION && !LosesSeconds(r.req, before.period)
    ensures NewestFirst(r.second.printed)
    ensures PrintsOnce(r.filters, r.req, r.second, trail.default) <==>
      !(Covered(before.period, r.req.startTime) && Refetched(r.req, before.period, r.req.startTime)
        && exists e: Event :: Due(r.filters, r.req, trail.default, e) && e.time.value == r.req.startTime)
  {
    FirstCall(before, r, home, trail);
    SecondCall(before, r, home, trail);
    Converges(before, r.homeLookup, r.filters, home, r.req, r.first, trail.home);
    FullOverlapIff(r.req, r.first.cache.period);
    TouchedOnce(r.first.cache.period, r.req);
    PrintedNewestFirst(r.first.cache, r.first.missing, r.defaultLookup, r.filters, DEFAULT_REGION, r.req, r.second,
                       trail.default);
    if ContainedInOne(r.req, before.period) {
      ContainedNotRefetched(r.req, before.period);
      SecondFullOnce(before, r, home, trail);
    } else {
      SecondRegionOnceIff(before, r, home, trail);
      SomethingMissing(r.req, before.period);
      forall e: Event | Due(r.filters, r.req, trail.default, e)
        ensures OnceAt(r.req, before.period, 1, e.time.value) <==>
          !(e.DuringAny(before.period) && Refetched(r.req, before.period, e.time.value) && e.time.value == r.req.startTime)
      {
        assert !Lost(r.req, before.period, e.time.value);
      }
    }
  }

  lemma ContainedNotRefetched(req: Period, c: seq<Period>)
    requires NormalForm(c) && req.Valid() && ContainedInOne(req, c)
    ensures !Refetched(req, c, req.startTime)
  {
    if Refetched(req, c, req.startTime) {
      var k: nat :| k < |c| && Refetches(req, c, k) && req.startTime < c[k].startTime;
      RefetchesHole(req, c, k);
      WindowInOnePeriod(c, req);
      assert false;
    }
  }

  lemma SecondFullOnce(before: CacheData, r: RunRecord, home: string, trail: Trail)
    requires GoodTrail(trail, home) && Exact(before, trail, home) && GoodRun(before, r, home, trail)
    requires home != DEFAULT_REGION && ContainedInOne(r.req, before.period)
    ensures PrintsOnce(r.filters, r.req, r.second, trail.default)
  {
    FullOutcome(before, r.homeLookup, r.filters, home, r.req, r.first);
    SecondCall(before, r, home, trail);
    forall e: Event ensures Count(r.second.printed, e) ==
      if Due(r.filters, r.req, trail.default, e) then trail.default[e] else 0
    {
      if Due(r.filters, r.req, trail.default, e) {
        FullHit(r.first.cache, r.defaultLookup, r.filters, DEFAULT_REGION, r.req, r.second, e);
        MidCopies(before, r, home, trail, e);
        ExactCopies(before, DEFAULT_REGION, trail.default, e);
        CoveredByOne(before.period, r.req, e);
      } else {
        SecondNotDue(before, r, home, trail, e);
      }
    }
  }

  lemma CoveredByOne(c: seq<Period>, req: Period, e: Event)
    requires ContainedInOne(req, c)
    ensures e.During(req) ==> e.DuringAny(c)
  {
    var i :| 0 <= i < |c| && req.Within(c[i]);
    if e.During(req) {
      assert c[i].Contains(e.time.value);
    }
  }

  // ----- Conservation, exactly -----

  /** How often the trail of the queried regions holds an event. */
  ghost function Copies(trail: Trail, home: string, e: Event): nat {
    trail.home[e] + (if home == DEFAULT_REGION then 0 else trail.default[e])
  }

  /** A run on cached periods c fetches second t. */
  ghost predicate Fetches(req: Period, c: seq<Period>, t: int) {
    !ContainedInOne(req, c) && Covered(Missing(req, c), t)
  }

  ghost predicate FetchesEvent(req: Period, c: seq<Period>, e: Event) {
    e.time.Some? && Fetches(req, c, e.time.value)
  }

  /** What a first call asks for. */
  lemma FirstAsked(before: CacheData, lookup: Lookup, f: WriteEventFilters, home: string, req: Period, first: PageOutcome, t: int)
    requires NormalForm(before.period) && req.Valid() && PageRun(before, [], lookup, f, home, req, first)
    ensures Covered(first.asked, t) <==> Fetches(req, before.period, t)
  {
    if ContainedInOne(req, before.period) {
      FullOutcome(before, lookup, f, home, req, first);
    } else {
      FreshAsked(before, lookup, f, home, req, first);
    }
  }

  /** A run adds to the cache one copy of the trail of both regions in the seconds it fetches, and nothing else. */
  lemma {:induction false} RunAdds(before: CacheData, r: RunRecord, home: string, trail: Trail, e: Event)
    requires GoodTrail(trail, home) && NormalForm(before.period) && GoodRun(before, r, home, trail)
    ensures Count(r.second.cache.event, e) ==
      Count(before.event, e) + (if FetchesEvent(r.req, before.period, e) then Copies(trail, home, e) else 0)
    ensures e.DuringAny(r.second.cache.period) <==> e.DuringAny(before.period) || FetchesEvent(r.req, before.period, e)
  {
    FirstCall(before, r, home, trail);
    InAfter(before, r.first.asked, trail.home, r.first.cache, e);
    if home != DEFAULT_REGION {
      SecondCall(before, r, home, trail);
      InAfter(r.first.cache, r.second.asked, trail.default, r.second.cache, e);
    }
    if e.time.Some? {
      FirstAsked(before, r.homeLookup, r.filters, home, r.req, r.first, e.time.value);
    }
  }

  lemma OneRegion(trail: Trail, home: string, e: Event)
    requires GoodTrail(trail, home)
    ensures e.FromRegion(home) ==> Copies(trail, home, e) == trail.home[e]
    ensures e.FromRegion(DEFAULT_REGION) ==> Copies(trail, home, e) == trail.default[e]
    ensures Copies(trail, home, e) > 0 ==> e.time.Some? && (e.FromRegion(home) || e.FromRegion(DEFAULT_REGION))
  {
    assert trail.home[e] > 0 <==> e in trail.home;
    assert trail.default[e] > 0 <==> e in trail.default;
  }

  /** The event is stored as often as the trail holds it if its second is covered, and not at all otherwise. */
  ghost predicate StoredOnce(d: CacheData, trail: Trail, home: string, e: Event) {
    Count(d.event, e) == if e.DuringAny(d.period) then Copies(trail, home, e) else 0
  }

  lemma ExactIffStoredOnce(d: CacheData, trail: Trail, home: string)
    requires GoodTrail(trail, home)
    ensures Exact(d, trail, home) <==> NormalForm(d.period) && forall e: Event :: StoredOnce(d, trail, home, e)
  {
    if Exact(d, trail, home) {
      forall e: Event ensures StoredOnce(d, trail, home, e) {
        OneRegion(trail, home, e);
        CountIsMultiplicity(d.event, e);
        assert ExactFor(d, trail.home, home, [], e) && ExactFor(d, trail.default, DEFAULT_REGION, [], e);
      }
    }
    if NormalForm(d.period) && forall e: Event :: StoredOnce(d, trail, home, e) {
      forall e: Event
        ensures ExactFor(d, trail.home, home, [], e) && ExactFor(d, trail.default, DEFAULT_REGION, [], e)
        ensures e in d.event ==> e.FromRegion(home) || e.FromRegion(DEFAULT_REGION)
      {
        OneRegion(trail, home, e);
        CountIsMultiplicity(d.event, e);
        assert StoredOnce(d, trail, home, e);
      }
    }
  }

  /** The cache holds t already, and a request of t has it fetched again. */
  ghost predicate FetchesAgain(req: Period, c: seq<Period>, t: int) {
    req.Contains(t) && Covered(c, t) && Refetched(req, c, t)
  }

  lemma FetchesAgainIff(req: Period, c: seq<Period>, t: int)
    requires NormalForm(c) && req.Valid()
    ensures Fetches(req, c, t) && Covered(c, t) <==> FetchesAgain(req, c, t)
  {
    if ContainedInOne(req, c) && FetchesAgain(req, c, t) {
      var k: nat :| k < |c| && Refetches(req, c, k) && t < c[k].startTime;
      RefetchesHole(req, c, k);
      WindowInOnePeriod(c, req);
      assert false;
    }
    if !ContainedInOne(req, c) && Covered(c, t) {
      ReturnedAgainIff(req, c, t);
    }
  }

  /** A run stores nothing twice if and only if it fetches no cached second again that holds an event. */
  lemma RunExactIff(before: CacheData, r: RunRecord, home: string, trail: Trail)
    requires GoodTrail(trail, home) && Exact(before, trail, home) && GoodRun(before, r, home, trail)
    ensures Exact(r.second.cache, trail, home) <==>
      forall e: Event | Copies(trail, home, e) > 0 && e.time.Some? :: !FetchesAgain(r.req, before.period, e.time.value)
  {
    ExactIffStoredOnce(before, trail, home);
    ExactIffStoredOnce(r.second.cache, trail, home);
    RunNormal(before, r, home, trail);
    forall e: Event
      ensures StoredOnce(r.second.cache, trail, home, e) <==>
        (Copies(trail, home, e) > 0 && e.time.Some? ==> !FetchesAgain(r.req, before.period, e.time.value))
    {
      assert StoredOnce(before, trail, home, e);
      OneRegion(trail, home, e);
      RunAdds(before, r, home, trail, e);
      if e.time.Some? {
        FetchesAgainIff(r.req, before.period, e.time.value);
      }
    }
  }

  lemma RunNormal(before: CacheData, r: RunRecord, home: string, trail: Trail)
    requires GoodTrail(trail, home) && NormalForm(before.period) && GoodRun(before, r, home, trail)
    ensures NormalForm(r.second.cache.period)
  {
    FirstCall(before, r, home, trail);
    if home != DEFAULT_REGION {
      SecondCall(before, r, home, trail);
    }
  }

  /**
   Repeating a request: whatever happened before, if a run lost no second, a later run of any request inside it calls the
   API for nothing and prints exactly what is due.
   */
  lemma RepeatIsFullHit(before: CacheData, r: RunRecord, again: RunRecord, home: string, trail: Trail, e: Event)
    requires GoodTrail(trail, home) && Sound(before, trail, home) && GoodRun(before, r, home, trail)
    requires !LosesSeconds(r.req, before.period)
    requires GoodRun(r.second.cache, again, home, trail) && again.req.Within(r.req)
    ensures again.first.asked == [] && again.second.asked == []
    ensures again.second.cache.period == r.second.cache.period
    ensures e in again.first.printed <==> Due(again.filters, again.req, trail.home, e)
    ensures e in again.second.printed <==> home != DEFAULT_REGION && Due(again.filters, again.req, trail.default, e)
  {
    var mid := r.second.cache;
    RunSound(before, r, home, trail);
    forall t | again.req.Contains(t) ensures Covered(mid.period, t) {
      RunCovers(before, r, home, trail, t);
      CoverageUpToLost(r.req, before.period, t);
      assert !Lost(r.req, before.period, t);
    }
    WindowInOnePeriod(mid.period, again.req);
    NothingAskedTwice(mid, again.homeLookup, again.filters, home, again.req, again.first);
    FirstCall(mid, again, home, trail);
    SamePeriods(mid, again.first.cache, trail.home);
    if home != DEFAULT_REGION {
      SecondCall(mid, again, home, trail);
      SamePeriods(again.first.cache, again.second.cache, trail.default);
    }
    FullOverlapIff(again.req, mid.period);
    RunPrintedIff(mid, again, home, trail, e);
    if e.During(again.req) {
      assert Covered(mid.period, e.time.value);
    }
  }
}
