/**
 cmd/cloudtrail/cache.go: the cache file of one cluster, and the loops that filter cached events.

 The file is modelled as stored state that reads back what was saved. `Save` writes the file and leaves the
 in-memory cache as it was read.
 */
module EventCache {
  import opened Wrappers
  import opened Periods
  import opened Events
  import opened Selection
  import opened Sorting

  datatype CacheData = CacheData(period: seq<Period>, event: seq<Event>)

  const EMPTY_CACHE := CacheData([], [])

  /** Saving: the periods sorted (in some order where they start together) and merged, the events sorted newest first. */
  ghost predicate Saved(before: CacheData, added: CacheData, after: CacheData) {
    && (exists ps :: SortOf(ps, before.period + added.period, StartsBefore) && after.period == Merged(ps))
    && SortOf(after.event, before.event + added.event, StoredBefore)
  }

  /** `sort.Sort(Periods(ps))`. */
  method SortPeriods(ps: seq<Period>) returns (sorted: seq<Period>)
    ensures SortOf(sorted, ps, StartsBefore)
  {
    sorted := Sort(ps, StartsBefore);
  }

  /** `sort.Sort(sort.Reverse(Periods(ps)))`. */
  method SortPeriodsReversed(ps: seq<Period>) returns (sorted: seq<Period>)
    ensures SortOf(sorted, ps, StartsAfter)
  {
    sorted := Sort(ps, StartsAfter);
  }

  method SortEvents(events: seq<Event>) returns (sorted: seq<Event>)
    ensures SortOf(sorted, events, StoredBefore)
  {
    sorted := Sort(events, StoredBefore);
  }

  class CacheFile {
    var contents: Option<CacheData>

    constructor ()
      ensures contents == None
    {
      contents := None;
    }

    function Stored(): CacheData
      reads this
    {
      if contents.Some? then contents.value else EMPTY_CACHE
    }
  }

  class Cache {
    const file: CacheFile
    var period: seq<Period>
    var event: seq<Event>

    /** `NewCache`. */
    constructor (file: CacheFile)
      ensures this.file == file && period == [] && event == []
    {
      this.file := file;
      period := [];
      event := [];
    }

    function Data(): CacheData
      reads this
    {
      CacheData(period, event)
    }

    method EnsureFilenameExist()
      modifies file
      ensures file.contents == Some(old(file.Stored()))
    {
      if file.contents.None? {
        file.contents := Some(EMPTY_CACHE);
      }
    }

    /** Fails, changing nothing, when there is no file. */
    method Read() returns (ok: bool)
      modifies this
      ensures ok == file.contents.Some?
      ensures Data() == if ok then file.Stored() else old(Data())
    {
      if file.contents.None? {
        return false;
      }
      period := file.contents.value.period;
      event := file.contents.value.event;
      return true;
    }

    method Save(newCacheEvents: CacheData)
      modifies file
      ensures file.contents.Some? && Saved(Data(), newCacheEvents, file.contents.value)
    {
      var allPeriods := SortPeriods(period + newCacheEvents.period);
      var newPeriods := Merge(allPeriods);
      var allEvents := SortEvents(event + newCacheEvents.event);
      file.contents := Some(CacheData(newPeriods, allEvents));
    }

    method FilterByPeriod(req: Period) returns (eventsInCache: seq<Event>)
      ensures eventsInCache == CachedIn(period, event, req)
    {
      eventsInCache := [];
      for i := 0 to |period|
        invariant eventsInCache == CachedIn(period[..i], event, req)
      {
        assert period[..i + 1][..i] == period[..i];
        if period[i].Overlap(req) {
          ghost var before := eventsInCache;
          for j := 0 to |event|
            invariant eventsInCache == before + EventsDuring(event[..j], req)
          {
            SelectNext(event, (e: Event) => e.During(req), j);
            if event[j].time.Some? {
              var eventTime := event[j].time.value;
              if !(eventTime < req.startTime) && !(eventTime > req.endTime) {
                eventsInCache := eventsInCache + [event[j]];
              }
            }
          }
          assert event[..|event|] == event;
        }
      }
      assert period[..|period|] == period;
    }
  }

  function EventsDuring(events: seq<Event>, p: Period): seq<Event> {
    Select(events, (e: Event) => e.During(p))
  }

  /** The cached events of the requested period, once for every cached period that touches it. */
  function CachedIn(periods: seq<Period>, events: seq<Event>, req: Period): seq<Event> {
    if periods == [] then []
    else
      var front := CachedIn(periods[..|periods| - 1], events, req);
      if periods[|periods| - 1].Overlap(req) then front + EventsDuring(events, req) else front
  }

  function TouchCount(periods: seq<Period>, req: Period): nat {
    if periods == [] then 0
    else TouchCount(periods[..|periods| - 1], req) + (if periods[|periods| - 1].Overlap(req) then 1 else 0)
  }

  function RegionEvents(region: string, events: seq<Event>): seq<Event> {
    Select(events, (e: Event) => e.FromRegion(region))
  }

  method FilterByRegion(region: string, events: seq<Event>) returns (filtered: seq<Event>)
    ensures filtered == RegionEvents(region, events)
  {
    filtered := [];
    for i := 0 to |events|
      invariant filtered == RegionEvents(region, events[..i])
    {
      SelectNext(events, (e: Event) => e.FromRegion(region), i);
      var rawEventDetails := events[i].details;
      if rawEventDetails.None? {
        continue;
      }
      if rawEventDetails.value.eventRegion == region {
        filtered := filtered + [events[i]];
      }
    }
    assert events[..|events|] == events;
  }

  function EventsAfter(events: seq<Event>, afterTime: int): seq<Event> {
    Select(events, (e: Event) => e.AtOrAfter(afterTime))
  }

  function EventsBefore(events: seq<Event>, beforeTime: int): seq<Event> {
    Select(events, (e: Event) => e.AtOrBefore(beforeTime))
  }

  method FilterEventsAfter(events: seq<Event>, afterTime: int) returns (filtered: seq<Event>)
    ensures filtered == EventsAfter(events, afterTime)
  {
    filtered := [];
    for i := 0 to |events|
      invariant filtered == EventsAfter(events[..i], afterTime)
    {
      SelectNext(events, (e: Event) => e.AtOrAfter(afterTime), i);
      if events[i].time.Some? && (events[i].time.value > afterTime || events[i].time.value == afterTime) {
        filtered := filtered + [events[i]];
      }
    }
    assert events[..|events|] == events;
  }

  method FilterEventsBefore(events: seq<Event>, beforeTime: int) returns (filtered: seq<Event>)
    ensures filtered == EventsBefore(events, beforeTime)
  {
    filtered := [];
    for i := 0 to |events|
      invariant filtered == EventsBefore(events[..i], beforeTime)
    {
      SelectNext(events, (e: Event) => e.AtOrBefore(beforeTime), i);
      if events[i].time.Some? && (events[i].time.value < beforeTime || events[i].time.value == beforeTime) {
        filtered := filtered + [events[i]];
      }
    }
    assert events[..|events|] == events;
  }

  /** What getPages takes from the cache between two instants, both included. */
  function Window(events: seq<Event>, p: Period): seq<Event> {
    EventsBefore(EventsAfter(events, p.startTime), p.endTime)
  }

  function CachedEvents(cache: CacheData, region: string, req: Period): seq<Event> {
    RegionEvents(region, CachedIn(cache.period, cache.event, req))
  }

  // ----- Properties -----

  lemma {:induction false} WindowCount(events: seq<Event>, p: Period, e: Event)
    ensures Count(Window(events, p), e) ==
      if e.time.Some? && p.startTime <= e.time.value <= p.endTime then Count(events, e) else 0
  {
    SelectCount(EventsAfter(events, p.startTime), (x: Event) => x.AtOrBefore(p.endTime), e);
    SelectCount(events, (x: Event) => x.AtOrAfter(p.startTime), e);
  }

  /** Every cached event of the region and window comes back once per cached period that touches the request. */
  lemma {:induction false} CachedEventsCount(cache: CacheData, region: string, req: Period, e: Event)
    ensures Count(CachedEvents(cache, region, req), e) ==
      if e.details.Some? && e.details.value.eventRegion == region
         && e.time.Some? && req.startTime <= e.time.value <= req.endTime
      then TouchCount(cache.period, req) * Count(cache.event, e) else 0
  {
    SelectCount(CachedIn(cache.period, cache.event, req), (x: Event) => x.FromRegion(region), e);
    CachedInCount(cache.period, cache.event, req, e);
  }

  lemma {:induction false} CachedInCount(periods: seq<Period>, events: seq<Event>, req: Period, e: Event)
    ensures Count(CachedIn(periods, events, req), e) ==
      if e.During(req) then TouchCount(periods, req) * Count(events, e) else 0
  {
    if periods != [] {
      var front := periods[..|periods| - 1];
      CachedInCount(front, events, req, e);
      SelectCount(events, (x: Event) => x.During(req), e);
      TimesNext(TouchCount(front, req), Count(events, e));
      var last := if periods[|periods| - 1].Overlap(req) then EventsDuring(events, req) else [];
      assert CachedIn(periods, events, req) == CachedIn(front, events, req) + last;
      CountConcat(CachedIn(front, events, req), last, e);
    }
  }

  lemma TimesNext(k: nat, n: nat)
    ensures (k + 1) * n == k * n + n
  {
  }

  /** It is the number of cached periods that touch the request. */
  lemma {:induction false} TouchCountIsNumber(periods: seq<Period>, req: Period)
    ensures TouchCount(periods, req) == |Select(periods, (p: Period) => p.Overlap(req))|
  {
    if periods != [] {
      TouchCountIsNumber(periods[..|periods| - 1], req);
    }
  }

  lemma {:induction false} TouchCountPositive(periods: seq<Period>, req: Period)
    ensures TouchCount(periods, req) > 0 <==> exists i | 0 <= i < |periods| :: periods[i].Overlap(req)
  {
    if periods != [] {
      var front := periods[..|periods| - 1];
      TouchCountPositive(front, req);
      assert forall i | 0 <= i < |front| :: front[i] == periods[i];
    }
  }

  /** In a normal form nothing else touches a request that lies within one period. */
  lemma {:induction false} TouchCountFull(periods: seq<Period>, req: Period, i: nat, n: nat)
    requires NormalForm(periods) && req.Valid() && i < |periods| && req.Within(periods[i]) && n <= |periods|
    ensures TouchCount(periods[..n], req) == if i < n then 1 else 0
  {
    if n > 0 {
      TouchCountFull(periods, req, i, n - 1);
      assert periods[..n][..n - 1] == periods[..n - 1];
    }
  }

  lemma WindowNewestFirst(events: seq<Event>, p: Period)
    requires NewestFirst(events)
    ensures NewestFirst(Window(events, p))
  {
    SelectNewestFirst(events, (e: Event) => e.AtOrAfter(p.startTime));
    SelectNewestFirst(EventsAfter(events, p.startTime), (e: Event) => e.AtOrBefore(p.endTime));
  }

  /** If at most one cached period touches the request, its cached events keep their newest-first order. */
  lemma {:induction false} CachedInNewestFirst(periods: seq<Period>, events: seq<Event>, req: Period)
    requires NewestFirst(events) && TouchCount(periods, req) <= 1
    ensures NewestFirst(CachedIn(periods, events, req))
    ensures TouchCount(periods, req) == 0 ==> CachedIn(periods, events, req) == []
  {
    if periods != [] {
      CachedInNewestFirst(periods[..|periods| - 1], events, req);
      SelectNewestFirst(events, (e: Event) => e.During(req));
      assert [] + EventsDuring(events, req) == EventsDuring(events, req);
    }
  }

  lemma PermutationCovers(ps: seq<Period>, qs: seq<Period>)
    requires Permutation(ps, qs)
    ensures AllValid(ps) ==> AllValid(qs)
    ensures forall t | Covered(ps, t) :: Covered(qs, t)
  {
    forall t | Covered(ps, t) ensures Covered(qs, t) {
      var i :| 0 <= i < |ps| && ps[i].Contains(t);
      PermutationContains(ps, qs, ps[i]);
    }
    forall i | 0 <= i < |qs| ensures AllValid(ps) ==> qs[i].Valid() {
      PermutationContains(ps, qs, qs[i]);
    }
  }

  lemma CoveredConcat(ps: seq<Period>, qs: seq<Period>, t: int)
    ensures Covered(ps + qs, t) <==> Covered(ps, t) || Covered(qs, t)
  {
    if Covered(ps, t) {
      var i :| 0 <= i < |ps| && ps[i].Contains(t);
      assert (ps + qs)[i].Contains(t);
    }
    if Covered(qs, t) {
      var i :| 0 <= i < |qs| && qs[i].Contains(t);
      assert (ps + qs)[|ps| + i].Contains(t);
    }
  }

  /** Saving valid periods leaves a normal form that covers the old and the new seconds and no others. */
  lemma SavedCovers(before: CacheData, added: CacheData, after: CacheData, t: int)
    requires AllValid(before.period) && AllValid(added.period) && Saved(before, added, after)
    ensures NormalForm(after.period)
    ensures Covered(after.period, t) <==> Covered(before.period, t) || Covered(added.period, t)
  {
    var all := before.period + added.period;
    var ps :| SortOf(ps, all, StartsBefore) && after.period == Merged(ps);
    PermutationCovers(all, ps);
    PermutationCovers(ps, all);
    SortedAscending(ps);
    MergedNormal(ps);
    MergedCovers(ps, 1, t);
    CoveredConcat(before.period, added.period, t);
  }

  lemma SortedAscending(ps: seq<Period>)
    requires InOrder(ps, StartsBefore)
    ensures Ascending(ps)
  {
    forall i, j | 0 <= i < j < |ps| ensures ps[i].startTime <= ps[j].startTime {
      assert PairInOrder(ps, StartsBefore, i, j);
    }
  }

  /** Saving is deterministic in the periods, although the sort is not: any two outcomes record the same periods. */
  lemma SavedPeriodsUnique(before: CacheData, added: CacheData, after: CacheData, after': CacheData)
    requires AllValid(before.period) && AllValid(added.period)
    requires Saved(before, added, after) && Saved(before, added, after')
    ensures after.period == after'.period && Permutation(after.event, after'.event)
  {
    forall t ensures Covered(after.period, t) <==> Covered(after'.period, t) {
      SavedCovers(before, added, after, t);
      SavedCovers(before, added, after', t);
    }
    SavedCovers(before, added, after, 0);
    SavedCovers(before, added, after', 0);
    NormalFormUnique(after.period, after'.period);
  }

  lemma {:induction false} SavedCount(before: CacheData, added: CacheData, after: CacheData, e: Event)
    requires Saved(before, added, after)
    ensures Count(after.event, e) == Count(before.event, e) + Count(added.event, e)
    ensures NewestFirst(after.event)
  {
    CountConcat(before.event, added.event, e);
  }
}
