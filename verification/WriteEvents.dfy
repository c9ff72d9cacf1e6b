/**
 cmd/cloudtrail/write-events.go: `getPages` and the two-region part of `run`.

 The functions below say, for one call, what is printed, asked of the API and saved, in terms of the cache it
 reads and the answers it gets; the methods are the loops, proved to do exactly that. Printing appends to a
 sequence. The API is the answers it gives; pages may be errors.

 The goroutine of `GetEvents` passes an error on and then reads the events of the output that came with it
 (cmd/cloudtrail/event.go:82-89). The paginator returns none with an error, so the process ends there. The methods report
 such an end by `ok`: nothing is done after it, and what was printed or saved before it stays.
 */
module WriteEvents {
  import opened Wrappers
  import opened Periods
  import opened MissingPeriods
  import opened Events
  import opened Filters
  import opened EventCache
  import opened Sorting

  const DEFAULT_REGION := "us-east-1"

  /** What the paginator yields, page by page, for each period the API is asked for. */
  datatype Lookup = NoMore | Answer(period: Period, pages: seq<EventResult>, others: Lookup)

  function Pages(lookup: Lookup, p: Period): seq<EventResult> {
    match lookup
    case NoMore => []
    case Answer(period, pages, others) => if period == p then pages else Pages(others, p)
  }

  /** The API that gives these answers, each to its period. */
  ghost function LookupOf(answers: seq<(Period, seq<EventResult>)>): Lookup {
    if answers == [] then NoMore else Answer(answers[0].0, answers[0].1, LookupOf(answers[1..]))
  }

  /** Every page of the first answer to a period arrives, and nothing for a period without an answer. */
  lemma {:induction false} PagesFound(answers: seq<(Period, seq<EventResult>)>, p: Period, i: nat)
    requires i <= |answers| && forall j | 0 <= j < i :: answers[j].0 != p
    ensures i < |answers| && answers[i].0 == p ==> Pages(LookupOf(answers), p) == answers[i].1
    ensures i == |answers| ==> Pages(LookupOf(answers), p) == []
  {
    if i > 0 {
      PagesFound(answers[1..], p, i - 1);
    }
  }

  // ----- One call of getPages, as functions of the missing periods in descending order -----

  /** What is printed from the cache after missing period i: up to the next missing period, or the request's start. */
  function Between(req: Period, md: seq<Period>, i: nat): Period
    requires i < |md|
  {
    if i < |md| - 1 then Period(md[i + 1].endTime + 1, md[i].startTime - 1)
    else Period(req.startTime, md[i].startTime)
  }

  /** What is printed from the cache before the latest missing period. */
  function Head(req: Period, md: seq<Period>): Option<Period>
    requires md != []
  {
    if req.endTime != md[0].endTime then Some(Period(md[0].endTime, req.endTime)) else None
  }

  function PrintHead(f: WriteEventFilters, req: Period, cached: seq<Event>, md: seq<Period>): seq<Event>
    requires md != []
  {
    match Head(req, md)
    case None => []
    case Some(window) => Filtered(f, Window(cached, window))
  }

  /** The output when one cached period holds the whole request. */
  function PrintedFull(f: WriteEventFilters, req: Period, cached: seq<Event>, md: seq<Period>): seq<Event> {
    if md == [] then [] else Filtered(f, Window(cached, req))
  }

  /** The output of iteration i. */
  function Segment(f: WriteEventFilters, req: Period, cached: seq<Event>, lookup: Lookup, md: seq<Period>, i: nat): seq<Event>
    requires i < |md|
  {
    (if i == 0 then PrintHead(f, req, cached, md) else [])
    + Filtered(f, FetchedEvents(Pages(lookup, md[i])))
    + Filtered(f, Window(cached, Between(req, md, i)))
  }

  /** The output of iteration i, also if it stops at a failing page. */
  ghost function OutputOf(f: WriteEventFilters, req: Period, cached: seq<Event>, lookup: Lookup, md: seq<Period>, i: nat,
                          ok: bool): seq<Event>
    requires i < |md|
  {
    if ok then Segment(f, req, cached, lookup, md, i) else if i == 0 then PrintHead(f, req, cached, md) else []
  }

  /** The output of the first n iterations. */
  function PrintedUpTo(f: WriteEventFilters, req: Period, cached: seq<Event>, lookup: Lookup, md: seq<Period>, n: nat): seq<Event>
    requires n <= |md|
  {
    if n == 0 then [] else PrintedUpTo(f, req, cached, lookup, md, n - 1) + Segment(f, req, cached, lookup, md, n - 1)
  }

  /** Missing period i as it is recorded: all but the earliest are backdated by one second. */
  function Recorded(md: seq<Period>, i: nat, second: int := 1): Period
    requires i < |md|
  {
    if i < |md| - 1 then md[i].(startTime := md[i].startTime - second) else md[i]
  }

  function RecordedUpTo(md: seq<Period>, n: nat, second: int := 1): seq<Period>
    requires n <= |md|
  {
    if n == 0 then [] else RecordedUpTo(md, n - 1, second) + [Recorded(md, n - 1, second)]
  }

  function FetchedUpTo(lookup: Lookup, md: seq<Period>, n: nat): seq<Event>
    requires n <= |md|
  {
    if n == 0 then [] else FetchedUpTo(lookup, md, n - 1) + FetchedEvents(Pages(lookup, md[n - 1]))
  }

  /**
   What a call leaves behind: the saved cache, the pending missing periods, its output and the periods it asked
   for; `order` is the list of missing periods as the sort left it.
   */
  datatype PageOutcome = PageOutcome(
    cache: CacheData, missing: seq<Period>, printed: seq<Event>, asked: seq<Period>, order: seq<Period>)

  ghost predicate OutcomeOf(before: CacheData, full: bool, lookup: Lookup, f: WriteEventFilters,
                            region: string, req: Period, out: PageOutcome)
  {
    var cached, md := CachedEvents(before, region, req), out.order;
    if full then
      && out.printed == PrintedFull(f, req, cached, md)
      && out.missing == []
      && out.asked == []
      && Saved(before, EMPTY_CACHE, out.cache)
    else
      && out.printed == PrintedUpTo(f, req, cached, lookup, md, |md|)
      && out.missing == md
      && out.asked == md
      && Saved(before, CacheData(RecordedUpTo(md, |md|), FetchedUpTo(lookup, md, |md|)), out.cache)
  }

  /** No page of the first n answers fails. */
  ghost predicate NoneFails(lookup: Lookup, asked: seq<Period>, n: nat)
    requires n <= |asked|
  {
    forall i | 0 <= i < n :: !Fails(Pages(lookup, asked[i]))
  }

  /** Missing periods left by an earlier call are taken over; otherwise they are computed from the cache. */
  function ToFetch(cachePeriods: seq<Period>, pending: seq<Period>, req: Period): seq<Period> {
    if pending == [] then Missing(req, cachePeriods) else pending
  }

  predicate IsFull(cachePeriods: seq<Period>, pending: seq<Period>, req: Period) {
    pending == [] && FullOverlap(req, cachePeriods)
  }

  /** One call of getPages that comes to its end. */
  ghost predicate PageRun(before: CacheData, pending: seq<Period>, lookup: Lookup, f: WriteEventFilters,
                          region: string, req: Period, out: PageOutcome)
  {
    && SortOf(out.order, ToFetch(before.period, pending, req), StartsAfter)
    && OutcomeOf(before, IsFull(before.period, pending, req), lookup, f, region, req, out)
    && NoneFails(lookup, out.asked, |out.asked|)
  }

  /** A call that ends with the process: the missing periods as sorted, and the one whose answer has a failing page. */
  datatype PageStop = PageStop(order: seq<Period>, at: nat, printed: seq<Event>, asked: seq<Period>)

  /** Pieces before the failing one were fetched and printed; of the failing one nothing was. */
  ghost predicate StopsAt(cached: seq<Event>, lookup: Lookup, f: WriteEventFilters, req: Period, md: seq<Period>, n: nat,
                          printed: seq<Event>)
  {
    && n < |md|
    && NoneFails(lookup, md, n) && Fails(Pages(lookup, md[n]))
    && printed == PrintedUpTo(f, req, cached, lookup, md, n) + (if n == 0 then PrintHead(f, req, cached, md) else [])
  }

  ghost predicate PageStopped(before: CacheData, pending: seq<Period>, lookup: Lookup, f: WriteEventFilters,
                              region: string, req: Period, stop: PageStop)
  {
    && SortOf(stop.order, ToFetch(before.period, pending, req), StartsAfter)
    && !IsFull(before.period, pending, req)
    && StopsAt(CachedEvents(before, region, req), lookup, f, req, stop.order, stop.at, stop.printed)
    && stop.asked == stop.order[..stop.at + 1]
  }

  datatype PageResult = Ended(out: PageOutcome) | Stopped(stop: PageStop)

  ghost predicate PageCall(before: CacheData, pending: seq<Period>, lookup: Lookup, f: WriteEventFilters,
                           region: string, req: Period, r: PageResult)
  {
    match r
    case Ended(out) => PageRun(before, pending, lookup, f, region, req, out)
    case Stopped(stop) => PageStopped(before, pending, lookup, f, region, req, stop)
  }

  /** One run: the cluster's region, then us-east-1 if that is another one. */
  ghost predicate FullRun(before: CacheData, pending: seq<Period>, homeLookup: Lookup, defaultLookup: Lookup, f: WriteEventFilters,
                          region: string, req: Period, first: PageOutcome, second: PageOutcome)
  {
    && PageRun(before, pending, homeLookup, f, region, req, first)
    && SecondRun(first, defaultLookup, f, region, req, second)
  }

  ghost predicate SecondRun(first: PageOutcome, defaultLookup: Lookup, f: WriteEventFilters, region: string, req: Period,
                            second: PageOutcome)
  {
    if DEFAULT_REGION != region
    then PageRun(first.cache, first.missing, defaultLookup, f, DEFAULT_REGION, req, second)
    else second == PageOutcome(first.cache, first.missing, [], [], [])
  }

  ghost predicate SecondStopped(first: PageOutcome, defaultLookup: Lookup, f: WriteEventFilters, region: string, req: Period,
                                stop: PageStop)
  {
    DEFAULT_REGION != region && PageStopped(first.cache, first.missing, defaultLookup, f, DEFAULT_REGION, req, stop)
  }

  /** How a run ends: it completes, or the process ends in its first or in its second call. */
  datatype RunOutcome = Completed(first: PageOutcome, second: PageOutcome)
                      | StoppedFirst(stop: PageStop)
                      | StoppedSecond(first: PageOutcome, stop: PageStop)

  ghost predicate RunEnds(before: CacheData, pending: seq<Period>, homeLookup: Lookup, defaultLookup: Lookup,
                          f: WriteEventFilters, region: string, req: Period, o: RunOutcome)
  {
    match o
    case Completed(first, second) =>
      FullRun(before, pending, homeLookup, defaultLookup, f, region, req, first, second)
    case StoppedFirst(stop) =>
      PageStopped(before, pending, homeLookup, f, region, req, stop)
    case StoppedSecond(first, stop) =>
      && PageRun(before, pending, homeLookup, f, region, req, first)
      && SecondStopped(first, defaultLookup, f, region, req, stop)
  }

  /** How a run ends after a first call that ended: there is no second call, or that one ends in the given way. */
  ghost function AfterFirst(first: PageOutcome): RunOutcome {
    Completed(first, PageOutcome(first.cache, first.missing, [], [], []))
  }

  ghost function AfterBoth(first: PageOutcome, second: PageResult): RunOutcome {
    match second
    case Ended(out) => Completed(first, out)
    case Stopped(stop) => StoppedSecond(first, stop)
  }

  /** The cache a run leaves in the file. */
  function StoredAfter(before: CacheData, o: RunOutcome): CacheData {
    match o
    case Completed(_, second) => second.cache
    case StoppedFirst(_) => before
    case StoppedSecond(first, _) => first.cache
  }

  function RunPrinted(o: RunOutcome): seq<Event> {
    match o
    case Completed(first, second) => first.printed + second.printed
    case StoppedFirst(stop) => stop.printed
    case StoppedSecond(first, stop) => first.printed + stop.printed
  }

  lemma ConcatAssoc<T>(a: seq<T>, b: seq<T>, c: seq<T>)
    ensures a + b + c == a + (b + c)
  {
  }

  /** What the loop over the missing periods has gathered, printed and asked for after n iterations. */
  ghost predicate Through(f: WriteEventFilters, req: Period, cached: seq<Event>, lookup: Lookup, md: seq<Period>, n: nat,
                          newPeriods: seq<Period>, newEvents: seq<Event>, printed: seq<Event>)
    requires n <= |md|
  {
    && newPeriods == RecordedUpTo(md, n) && newEvents == FetchedUpTo(lookup, md, n)
    && printed == PrintedUpTo(f, req, cached, lookup, md, n)
    && NoneFails(lookup, md, n)
  }

  lemma {:induction false} ThroughNext(f: WriteEventFilters, req: Period, cached: seq<Event>, lookup: Lookup,
                                       md: seq<Period>, i: nat, newPeriods: seq<Period>, newEvents: seq<Event>,
                                       printed: seq<Event>)
    requires i < |md| && Through(f, req, cached, lookup, md, i, newPeriods, newEvents, printed)
    requires !Fails(Pages(lookup, md[i]))
    ensures Through(f, req, cached, lookup, md, i + 1,
                    newPeriods + [Recorded(md, i)], newEvents + FetchedEvents(Pages(lookup, md[i])),
                    printed + OutputOf(f, req, cached, lookup, md, i, true))
  {
  }

  lemma {:induction false} StopsNow(f: WriteEventFilters, req: Period, cached: seq<Event>, lookup: Lookup,
                                    md: seq<Period>, i: nat, newPeriods: seq<Period>, newEvents: seq<Event>,
                                    printed: seq<Event>)
    requires i < |md| && Through(f, req, cached, lookup, md, i, newPeriods, newEvents, printed)
    requires Fails(Pages(lookup, md[i]))
    ensures StopsAt(cached, lookup, f, req, md, i, printed + OutputOf(f, req, cached, lookup, md, i, false))
  {
  }

  // ----- The objects -----

  class Printer {
    var printed: seq<Event>

    constructor ()
      ensures printed == []
    {
      printed := [];
    }

    method PrintEvents(events: seq<Event>)
      modifies this
      ensures printed == old(printed) + events
    {
      printed := printed + events;
    }
  }

  class EventAPI {
    const lookup: Lookup
    var requests: seq<Period>

    constructor (lookup: Lookup)
      ensures this.lookup == lookup && requests == []
    {
      this.lookup := lookup;
      requests := [];
    }

    /** The goroutine of `GetEvents`: the results it sends, and whether it brings the process down. */
    method GetEvents(missing: Period) returns (sent: seq<EventResult>, crashed: bool)
      modifies this
      ensures crashed <==> Fails(Pages(lookup, missing))
      ensures if crashed then sent <= Pages(lookup, missing) && Fails(sent) else sent == Pages(lookup, missing)
      ensures requests == old(requests) + [missing]
    {
      requests := requests + [missing];
      var pages := Pages(lookup, missing);
      sent := [];
      for i := 0 to |pages|
        invariant sent == pages[..i] && !Fails(sent)
      {
        sent := sent + [pages[i]];
        if pages[i].PageError? {
          assert sent[i].PageError?;
          return sent, true;
        }
      }
      assert pages[..|pages|] == pages;
      crashed := false;
    }
  }

  class WriteEventsOptions {
    const file: CacheFile
    const printer: Printer
    var awsAPI: EventAPI
    var missingPeriod: seq<Period>

    constructor (file: CacheFile, printer: Printer, awsAPI: EventAPI)
      ensures this.file == file && this.printer == printer && this.awsAPI == awsAPI && missingPeriod == []
    {
      this.file := file;
      this.printer := printer;
      this.awsAPI := awsAPI;
      missingPeriod := [];
    }

    /** The loop over the results of one answer. */
    method Fetch(period: Period) returns (ok: bool, missingEvents: seq<Event>)
      modifies awsAPI
      ensures ok <==> !Fails(Pages(awsAPI.lookup, period))
      ensures ok ==> missingEvents == FetchedEvents(Pages(awsAPI.lookup, period))
      ensures awsAPI.requests == old(awsAPI.requests) + [period]
    {
      var sent, crashed := awsAPI.GetEvents(period);
      missingEvents := [];
      for i := 0 to |sent|
        invariant missingEvents == FetchedEvents(sent[..i])
        invariant awsAPI.requests == old(awsAPI.requests) + [period]
      {
        assert sent[..i + 1][..i] == sent[..i];
        if sent[i].PageError? {
          continue;
        }
        missingEvents := missingEvents + sent[i].events;
      }
      assert sent[..|sent|] == sent;
      ok := !crashed;
    }

    /** Filters the cached events of a window and prints them. */
    method PrintCached(f: WriteEventFilters, cached: seq<Event>, window: Period)
      requires f.Valid()
      modifies printer
      ensures printer.printed == old(printer.printed) + Filtered(f, Window(cached, window))
    {
      var after := FilterEventsAfter(cached, window.startTime);
      var events := FilterEventsBefore(after, window.endTime);
      var filtered := ApplyWriteFilters(f, events);
      printer.PrintEvents(filtered);
    }

    /** One iteration of the loop of getPages, when the cache does not hold the whole request. */
    method Advance(f: WriteEventFilters, req: Period, cacheEvents: seq<Event>, i: nat)
      returns (ok: bool, currentPeriod: Period, missingEvents: seq<Event>)
      requires f.Valid() && i < |missingPeriod|
      modifies printer, awsAPI
      ensures ok <==> !Fails(Pages(awsAPI.lookup, missingPeriod[i]))
      ensures ok ==> currentPeriod == Recorded(missingPeriod, i)
      ensures ok ==> missingEvents == FetchedEvents(Pages(awsAPI.lookup, missingPeriod[i]))
      ensures printer.printed == old(printer.printed) + OutputOf(f, req, cacheEvents, awsAPI.lookup, missingPeriod, i, ok)
      ensures awsAPI.requests == old(awsAPI.requests) + [missingPeriod[i]]
    {
      ghost var before := printer.printed;
      ghost var head := if i == 0 then PrintHead(f, req, cacheEvents, missingPeriod) else [];
      currentPeriod := missingPeriod[i];
      if i == 0 && req.endTime != currentPeriod.endTime {
        PrintCached(f, cacheEvents, Period(currentPeriod.endTime, req.endTime));
      }
      assert printer.printed == before + head;
      ok, missingEvents := Fetch(currentPeriod);
      if !ok {
        return;
      }
      PrintRest(f, req, cacheEvents, i, missingEvents);
      if i < |missingPeriod| - 1 {
        currentPeriod := currentPeriod.(startTime := currentPeriod.startTime - 1);
      }
      ConcatAssoc(before, head, Filtered(f, missingEvents));
      ConcatAssoc(before, head + Filtered(f, missingEvents),
                  Filtered(f, Window(cacheEvents, Between(req, missingPeriod, i))));
    }

    /** Prints what was fetched, and the cached events down to the next missing period. */
    method PrintRest(f: WriteEventFilters, req: Period, cacheEvents: seq<Event>, i: nat, missingEvents: seq<Event>)
      requires f.Valid() && i < |missingPeriod|
      modifies printer
      ensures printer.printed == old(printer.printed) + Filtered(f, missingEvents)
        + Filtered(f, Window(cacheEvents, Between(req, missingPeriod, i)))
    {
      var fetchedEvents := ApplyWriteFilters(f, missingEvents);
      printer.PrintEvents(fetchedEvents);
      var startTimePeriod, currentStart := req.startTime, missingPeriod[i].startTime;
      if i < |missingPeriod| - 1 {
        startTimePeriod := missingPeriod[i + 1].endTime + 1;
        currentStart := currentStart - 1;
      }
      PrintCached(f, cacheEvents, Period(startTimePeriod, currentStart));
    }

    /** One iteration, in terms of everything gathered and printed so far. */
    method Iterate(f: WriteEventFilters, req: Period, cacheEvents: seq<Event>, i: nat,
                   newPeriods: seq<Period>, newEvents: seq<Event>,
                   ghost before: seq<Event>, ghost requests: seq<Period>, ghost printed: seq<Event>)
      returns (ok: bool, newPeriods': seq<Period>, newEvents': seq<Event>, ghost printed': seq<Event>)
      requires f.Valid() && i < |missingPeriod|
      requires Through(f, req, cacheEvents, awsAPI.lookup, missingPeriod, i, newPeriods, newEvents, printed)
      requires printer.printed == before + printed && awsAPI.requests == requests + missingPeriod[..i]
      modifies printer, awsAPI
      ensures printer.printed == before + printed' && awsAPI.requests == requests + missingPeriod[..i + 1]
      ensures ok ==> Through(f, req, cacheEvents, awsAPI.lookup, missingPeriod, i + 1, newPeriods', newEvents', printed')
      ensures !ok ==> StopsAt(cacheEvents, awsAPI.lookup, f, req, missingPeriod, i, printed')
    {
      ghost var lookup, md := awsAPI.lookup, missingPeriod;
      var currentPeriod, missingEvents;
      ok, currentPeriod, missingEvents := Advance(f, req, cacheEvents, i);
      assert md[..i] + [md[i]] == md[..i + 1];
      ConcatAssoc(requests, md[..i], [md[i]]);
      ghost var shown := OutputOf(f, req, cacheEvents, lookup, md, i, ok);
      ConcatAssoc(before, printed, shown);
      newPeriods', newEvents', printed' := newPeriods, newEvents, printed + shown;
      if ok {
        newPeriods', newEvents' := newPeriods + [currentPeriod], newEvents + missingEvents;
        ThroughNext(f, req, cacheEvents, lookup, md, i, newPeriods, newEvents, printed);
      } else {
        StopsNow(f, req, cacheEvents, lookup, md, i, newPeriods, newEvents, printed);
      }
    }

    /** A full hit: everything comes from the cache, and nothing is left to fetch. */
    method PrintFull(f: WriteEventFilters, req: Period, cacheEvents: seq<Event>) returns (ghost printed: seq<Event>)
      requires f.Valid() && missingPeriod != []
      modifies this`missingPeriod, printer
      ensures missingPeriod == [] && printed == PrintedFull(f, req, cacheEvents, old(missingPeriod))
      ensures printer.printed == old(printer.printed) + printed
    {
      printed := PrintedFull(f, req, cacheEvents, missingPeriod);
      PrintCached(f, cacheEvents, req);
      missingPeriod := [];
    }

    /** The loop of getPages over the missing periods, latest first. */
    method FetchMissing(f: WriteEventFilters, req: Period, cacheEvents: seq<Event>, fullCacheOverlap: bool)
      returns (ok: bool, newPeriods: seq<Period>, newEvents: seq<Event>, ghost printed: seq<Event>, ghost n: nat)
      requires f.Valid()
      modifies this`missingPeriod, printer, awsAPI
      ensures n <= |old(missingPeriod)|
      ensures printer.printed == old(printer.printed) + printed
      ensures awsAPI.requests == old(awsAPI.requests) + old(missingPeriod)[..n]
      ensures missingPeriod == if fullCacheOverlap then [] else old(missingPeriod)
      ensures fullCacheOverlap ==>
        ok && n == 0 && newPeriods == [] && newEvents == [] && printed == PrintedFull(f, req, cacheEvents, old(missingPeriod))
      ensures !fullCacheOverlap && ok ==> n == |missingPeriod|
      ensures !fullCacheOverlap && ok ==>
        Through(f, req, cacheEvents, awsAPI.lookup, missingPeriod, n, newPeriods, newEvents, printed)
      ensures !ok ==> n > 0 && StopsAt(cacheEvents, awsAPI.lookup, f, req, old(missingPeriod), n - 1, printed)
    {
      ghost var md, before, requests := missingPeriod, printer.printed, awsAPI.requests;
      ok, newPeriods, newEvents, printed, n := true, [], [], [], 0;
      var i := 0;
      while i < |missingPeriod|
        invariant 0 <= i == n <= |md|
        invariant ok && missingPeriod == md
        invariant fullCacheOverlap ==> i == 0
        invariant Through(f, req, cacheEvents, awsAPI.lookup, md, i, newPeriods, newEvents, printed)
        invariant printer.printed == before + printed
        invariant awsAPI.requests == requests + md[..i]
      {
        if fullCacheOverlap {
          printed := PrintFull(f, req, cacheEvents);
          break;
        }
        ok, newPeriods, newEvents, printed := Iterate(f, req, cacheEvents, i, newPeriods, newEvents, before, requests, printed);
        n := n + 1;
        if !ok {
          return;
        }
        i := i + 1;
      }
    }

    /** The missing periods of this call, latest first, and whether one cached period holds the whole request. */
    method PlanMissing(cachePeriods: seq<Period>, req: Period) returns (fullCacheOverlap: bool)
      modifies this`missingPeriod
      ensures SortOf(missingPeriod, ToFetch(cachePeriods, old(missingPeriod), req), StartsAfter)
      ensures fullCacheOverlap == IsFull(cachePeriods, old(missingPeriod), req)
    {
      fullCacheOverlap := false;
      if |missingPeriod| == 0 {
        missingPeriod, fullCacheOverlap := DiffMultiple(req, cachePeriods);
      }
      missingPeriod := SortPeriodsReversed(missingPeriod);
    }

    method GetPages(f: WriteEventFilters, region: string, req: Period) returns (ok: bool, ghost r: PageResult)
      requires f.Valid()
      modifies this`missingPeriod, file, printer, awsAPI
      ensures ok <==> r.Ended?
      ensures PageCall(old(file.Stored()), old(missingPeriod), awsAPI.lookup, f, region, req, r)
      ensures r.Ended? ==> file.contents == Some(r.out.cache) && missingPeriod == r.out.missing
      ensures r.Stopped? ==> file.contents == Some(old(file.Stored()))
      ensures printer.printed == old(printer.printed) + (if r.Ended? then r.out.printed else r.stop.printed)
      ensures awsAPI.requests == old(awsAPI.requests) + (if r.Ended? then r.out.asked else r.stop.asked)
    {
      var cache := new Cache(file);
      cache.EnsureFilenameExist();
      var loaded := cache.Read();
      ghost var before := cache.Data();
      assert loaded && before == old(file.Stored());

      var fullCacheOverlap := PlanMissing(cache.period, req);
      ghost var md := missingPeriod;
      var cacheEvents := cache.FilterByPeriod(req);
      cacheEvents := FilterByRegion(region, cacheEvents);
      assert cacheEvents == CachedEvents(before, region, req);

      var newPeriods, newEvents;
      ghost var printed, n;
      ok, newPeriods, newEvents, printed, n := FetchMissing(f, req, cacheEvents, fullCacheOverlap);
      if !ok {
        return false, Stopped(PageStop(md, n - 1, printed, md[..n]));
      }
      cache.Save(CacheData(newPeriods, newEvents));
      assert md[..|md|] == md;
      ghost var out := PageOutcome(file.contents.value, missingPeriod, printed, if fullCacheOverlap then [] else md, md);
      assert OutcomeOf(before, fullCacheOverlap, awsAPI.lookup, f, region, req, out);
      r := Ended(out);
    }

    /** `run`, once the connection, the region and the requested period are known. */
    method Run(f: WriteEventFilters, region: string, req: Period, homeLookup: Lookup, defaultLookup: Lookup)
      returns (ok: bool, ghost o: RunOutcome)
      requires f.Valid()
      modifies this, file, printer
      ensures ok <==> o.Completed?
      ensures RunEnds(old(file.Stored()), old(missingPeriod), homeLookup, defaultLookup, f, region, req, o)
      ensures file.contents == Some(StoredAfter(old(file.Stored()), o))
      ensures o.Completed? ==> missingPeriod == o.second.missing
      ensures printer.printed == old(printer.printed) + RunPrinted(o)
    {
      ghost var before := printer.printed;
      awsAPI := new EventAPI(homeLookup);
      ghost var first, second;
      ok, first := GetPages(f, region, req);
      if !ok {
        return false, StoppedFirst(first.stop);
      }
      o := AfterFirst(first.out);
      if DEFAULT_REGION != region {
        awsAPI := new EventAPI(defaultLookup);
        ok, second := GetPages(f, DEFAULT_REGION, req);
        ConcatAssoc(before, first.out.printed, if ok then second.out.printed else second.stop.printed);
        o := AfterBoth(first.out, second);
      }
    }
  }
}
