/**
 Every sequence of runs of the command on one cache file. A run may complete, or end with the process in its first or in its
 second call, when asking for a page fails. The trail is fixed; filters are arbitrary, and requests start
 no later than they end.

 What a run that ends in its second call leaves behind is the point: its periods are recorded for both regions, but the
 events of us-east-1 in them were never fetched.
 */
module HistoryTheorems {
  import opened Wrappers
  import opened Periods
  import opened MissingPeriods
  import opened Events
  import opened Filters
  import opened Selection
  import opened EventCache
  import opened Sorting
  import opened WriteEvents
  import opened PageTheorems
  import opened CacheTheorems
  import opened RunTheorems

  datatype Step = Step(filters: WriteEventFilters, req: Period, homeLookup: Lookup, defaultLookup: Lookup, end: RunOutcome)

  /** A run of a fresh process, however it ends; the answers that arrive whole are faithful. */
  ghost predicate GoodStep(before: CacheData, s: Step, home: string, trail: Trail) {
    && s.filters.Valid() && s.req.Valid()
    && RunEnds(before, [], s.homeLookup, s.defaultLookup, s.filters, home, s.req, s.end)
    && match s.end
       case Completed(first, second) =>
         Faithful(s.homeLookup, trail.home, first.asked) && Faithful(s.defaultLookup, trail.default, second.asked)
       case StoppedFirst(stop) =>
         Faithful(s.homeLookup, trail.home, stop.order[..stop.at])
       case StoppedSecond(first, stop) =>
         && Faithful(s.homeLookup, trail.home, first.asked)
         && Faithful(s.defaultLookup, trail.default, stop.order[..stop.at])
  }

  function AsRun(s: Step): RunRecord
    requires s.end.Completed?
  {
    RunRecord(s.filters, s.req, s.homeLookup, s.defaultLookup, s.end.first, s.end.second)
  }

  /** The stored cache after the first n runs; the first finds none. */
  function CacheAfter(h: seq<Step>, n: nat): CacheData
    requires n <= |h|
  {
    if n == 0 then EMPTY_CACHE else StoredAfter(CacheAfter(h, n - 1), h[n - 1].end)
  }

  ghost predicate StepAt(h: seq<Step>, i: nat, home: string, trail: Trail)
    requires i < |h|
  {
    GoodStep(CacheAfter(h, i), h[i], home, trail)
  }

  /** Runs one after the other, each on the cache its predecessor left. */
  ghost predicate History(h: seq<Step>, home: string, trail: Trail) {
    forall i | 0 <= i < |h| :: StepAt(h, i, home, trail)
  }

  // ----- One step -----

  /** What a run does to the stored cache: the seconds it fetches, and each region's events in them if that region's call ends. */
  ghost function StepCopies(end: RunOutcome, trail: Trail, home: string, e: Event): nat {
    match end
    case Completed(_, _) => Copies(trail, home, e)
    case StoppedFirst(_) => 0
    case StoppedSecond(_, _) => trail.home[e]
  }

  lemma {:induction false} FirstEnded(before: CacheData, s: Step, home: string, trail: Trail, first: PageOutcome,
                                      e: Event)
    requires GoodTrail(trail, home) && NormalForm(before.period) && s.req.Valid() && s.filters.Valid()
    requires PageRun(before, [], s.homeLookup, s.filters, home, s.req, first) && Faithful(s.homeLookup, trail.home, first.asked)
    ensures Count(first.cache.event, e) ==
      Count(before.event, e) + (if FetchesEvent(s.req, before.period, e) then trail.home[e] else 0)
    ensures forall t :: Covered(first.cache.period, t) <==> Covered(before.period, t) || Fetches(s.req, before.period, t)
    ensures NormalForm(first.cache.period) && NewestFirst(first.cache.event)
  {
    PageGrows(before, [], s.homeLookup, s.filters, home, s.req, first, trail.home);
    forall t ensures Covered(first.asked, t) <==> Fetches(s.req, before.period, t) {
      FirstAsked(before, s.homeLookup, s.filters, home, s.req, first, t);
    }
  }

  lemma {:induction false} CompletedEnded(before: CacheData, s: Step, home: string, trail: Trail, e: Event)
    requires GoodTrail(trail, home) && NormalForm(before.period) && GoodStep(before, s, home, trail) && s.end.Completed?
    ensures GoodRun(before, AsRun(s), home, trail)
    ensures Count(s.end.second.cache.event, e) ==
      Count(before.event, e) + (if FetchesEvent(s.req, before.period, e) then Copies(trail, home, e) else 0)
    ensures forall t :: Covered(s.end.second.cache.period, t) <==> Covered(before.period, t) || Fetches(s.req, before.period, t)
    ensures NormalForm(s.end.second.cache.period) && NewestFirst(s.end.second.cache.event)
  {
    var r := AsRun(s);
    RunAdds(before, r, home, trail, e);
    RunNormal(before, r, home, trail);
    FirstCall(before, r, home, trail);
    if home != DEFAULT_REGION {
      SecondCall(before, r, home, trail);
    }
    forall t ensures Covered(s.end.second.cache.period, t) <==> Covered(before.period, t) || Fetches(s.req, before.period, t) {
      RunCovers(before, r, home, trail, t);
      FullCovers(before, r.req, t);
    }
  }

  lemma FullCovers(before: CacheData, req: Period, t: int)
    requires NormalForm(before.period) && req.Valid()
    ensures ContainedInOne(req, before.period) && Covered(Missing(req, before.period), t) ==> Covered(before.period, t)
  {
    if ContainedInOne(req, before.period) {
      FullOverlapIff(req, before.period);
      WindowInOnePeriod(before.period, req);
      SinglePiece(req, t);
    }
  }

  lemma {:induction false} StepEffect(before: CacheData, s: Step, home: string, trail: Trail, e: Event)
    requires GoodTrail(trail, home) && NormalForm(before.period) && NewestFirst(before.event)
    requires GoodStep(before, s, home, trail)
    ensures var after := StoredAfter(before, s.end);
      && Count(after.event, e) ==
           Count(before.event, e) + (if FetchesEvent(s.req, before.period, e) then StepCopies(s.end, trail, home, e) else 0)
      && (forall t :: Covered(after.period, t) <==>
           Covered(before.period, t) || (!s.end.StoppedFirst? && Fetches(s.req, before.period, t)))
      && NormalForm(after.period) && NewestFirst(after.event)
  {
    match s.end
    case Completed(_, _) => CompletedEnded(before, s, home, trail, e);
    case StoppedFirst(_) =>
    case StoppedSecond(first, _) => FirstEnded(before, s, home, trail, first, e);
  }

  // ----- What any history leaves in the cache -----

  /** In how many of the first n runs the first call fetched second t and came to its end. */
  ghost function HomeTimes(h: seq<Step>, n: nat, t: int): nat
    requires n <= |h|
  {
    if n == 0 then 0
    else HomeTimes(h, n - 1, t) +
         (if !h[n - 1].end.StoppedFirst? && Fetches(h[n - 1].req, CacheAfter(h, n - 1).period, t) then 1 else 0)
  }

  /** In how many of them the second call did so, too. */
  ghost function DefaultTimes(h: seq<Step>, n: nat, t: int): nat
    requires n <= |h|
  {
    if n == 0 then 0
    else DefaultTimes(h, n - 1, t) +
         (if h[n - 1].end.Completed? && Fetches(h[n - 1].req, CacheAfter(h, n - 1).period, t) then 1 else 0)
  }

  /** One of the first n runs was asked for second t. */
  ghost predicate Requested(h: seq<Step>, n: nat, t: int)
    requires n <= |h|
  {
    n > 0 && (Requested(h, n - 1, t) || h[n - 1].req.Contains(t))
  }

  lemma EffectAt(h: seq<Step>, i: nat, home: string, trail: Trail, e: Event)
    requires GoodTrail(trail, home) && History(h, home, trail) && i < |h|
    requires NormalForm(CacheAfter(h, i).period) && NewestFirst(CacheAfter(h, i).event)
    ensures var before, after := CacheAfter(h, i), CacheAfter(h, i + 1);
      && Count(after.event, e) ==
           Count(before.event, e) + (if FetchesEvent(h[i].req, before.period, e) then StepCopies(h[i].end, trail, home, e) else 0)
      && (forall t :: Covered(after.period, t) <==>
           Covered(before.period, t) || (!h[i].end.StoppedFirst? && Fetches(h[i].req, before.period, t)))
      && NormalForm(after.period) && NewestFirst(after.event)
  {
    assert StepAt(h, i, home, trail);
    StepEffect(CacheAfter(h, i), h[i], home, trail, e);
  }

  /** After any runs of valid requests, however they ended, the cached periods are in normal form and the events newest first. */
  lemma {:induction false} HistoryNormal(h: seq<Step>, home: string, trail: Trail, n: nat)
    requires GoodTrail(trail, home) && History(h, home, trail) && n <= |h|
    ensures NormalForm(CacheAfter(h, n).period) && NewestFirst(CacheAfter(h, n).event)
    decreases n
  {
    if n > 0 {
      HistoryNormal(h, home, trail, n - 1);
      var e :| true;
      EffectAt(h, n - 1, home, trail, e);
    }
  }

  lemma {:induction false} RequestAt(h: seq<Step>, i: nat, home: string, trail: Trail, t: int)
    requires GoodTrail(trail, home) && History(h, home, trail) && i < |h|
    requires NormalForm(CacheAfter(h, i).period)
    ensures Fetches(h[i].req, CacheAfter(h, i).period, t) ==> h[i].req.Contains(t)
  {
    assert StepAt(h, i, home, trail);
    if Fetches(h[i].req, CacheAfter(h, i).period, t) {
      ReturnedInside(h[i].req, CacheAfter(h, i).period, t);
    }
  }

  lemma ReturnedInside(req: Period, c: seq<Period>, t: int)
    requires NormalForm(c) && req.Valid() && Covered(Missing(req, c), t)
    ensures req.Contains(t)
  {
    DiffMultipleShape(req, c);
    var i :| 0 <= i < |Missing(req, c)| && Missing(req, c)[i].Contains(t);
    assert Missing(req, c)[i].Within(req);
  }

  /** A second is covered exactly when a first call that ended fetched it; only requested seconds are. */
  lemma {:induction false} HistoryCovers(h: seq<Step>, home: string, trail: Trail, n: nat, t: int)
    requires GoodTrail(trail, home) && History(h, home, trail) && n <= |h|
    ensures Covered(CacheAfter(h, n).period, t) <==> HomeTimes(h, n, t) > 0
    ensures HomeTimes(h, n, t) > 0 ==> Requested(h, n, t)
    ensures DefaultTimes(h, n, t) <= HomeTimes(h, n, t)
    decreases n
  {
    if n > 0 {
      HistoryCovers(h, home, trail, n - 1, t);
      HistoryNormal(h, home, trail, n - 1);
      RequestAt(h, n - 1, home, trail, t);
      var e :| true;
      EffectAt(h, n - 1, home, trail, e);
    }
  }

  /** The copies of an event that `ht` ended first calls and `dt` ended second calls leave. */
  ghost function StoredCopies(trail: Trail, home: string, ht: nat, dt: nat, e: Event): nat {
    ht * trail.home[e] + (if home == DEFAULT_REGION then 0 else dt * trail.default[e])
  }

  lemma CopiesNext(trail: Trail, home: string, ht: nat, dt: nat, e: Event)
    ensures StoredCopies(trail, home, ht + 1, dt + 1, e) == StoredCopies(trail, home, ht, dt, e) + Copies(trail, home, e)
    ensures StoredCopies(trail, home, ht + 1, dt, e) == StoredCopies(trail, home, ht, dt, e) + trail.home[e]
  {
    TimesNext(ht, trail.home[e]);
    TimesNext(dt, trail.default[e]);
  }

  /** The copies that the first n runs leave of an event. */
  ghost function CopiesAfter(h: seq<Step>, n: nat, trail: Trail, home: string, e: Event): nat
    requires n <= |h|
  {
    if e.time.Some?
    then StoredCopies(trail, home, HomeTimes(h, n, e.time.value), DefaultTimes(h, n, e.time.value), e) else 0
  }

  lemma CopiesAfterNext(h: seq<Step>, i: nat, home: string, trail: Trail, e: Event)
    requires GoodTrail(trail, home) && History(h, home, trail) && i < |h|
    ensures CopiesAfter(h, i + 1, trail, home, e) ==
      CopiesAfter(h, i, trail, home, e) +
      (if FetchesEvent(h[i].req, CacheAfter(h, i).period, e) then StepCopies(h[i].end, trail, home, e) else 0)
  {
    StoppedAbroad(h, i, home, trail);
    if e.time.Some? {
      CopiesNext(trail, home, HomeTimes(h, i, e.time.value), DefaultTimes(h, i, e.time.value), e);
    }
  }

  /**
   Conservation, for all valid requests and however the runs end: the cache holds each event of the cluster's region
   once for every ended first call that fetched its second, each event of us-east-1 once for every ended second call that
   did, and nothing else.
   */
  lemma {:induction false} HistoryCount(h: seq<Step>, home: string, trail: Trail, n: nat, e: Event)
    requires GoodTrail(trail, home) && History(h, home, trail) && n <= |h|
    ensures Count(CacheAfter(h, n).event, e) == CopiesAfter(h, n, trail, home, e)
    decreases n
  {
    if n > 0 {
      HistoryCount(h, home, trail, n - 1, e);
      CountAt(h, n - 1, home, trail, e);
      CopiesAfterNext(h, n - 1, home, trail, e);
    } else if e.time.Some? {
      assert StoredCopies(trail, home, 0, 0, e) == 0;
    }
  }

  lemma CountAt(h: seq<Step>, i: nat, home: string, trail: Trail, e: Event)
    requires GoodTrail(trail, home) && History(h, home, trail) && i < |h|
    ensures Count(CacheAfter(h, i + 1).event, e) ==
      Count(CacheAfter(h, i).event, e) +
      (if FetchesEvent(h[i].req, CacheAfter(h, i).period, e) then StepCopies(h[i].end, trail, home, e) else 0)
  {
    HistoryNormal(h, home, trail, i);
    EffectAt(h, i, home, trail, e);
  }

  /** Only a run on a cluster of another region has a second call to end in. */
  lemma StoppedAbroad(h: seq<Step>, i: nat, home: string, trail: Trail)
    requires History(h, home, trail) && i < |h|
    ensures h[i].end.StoppedSecond? ==> home != DEFAULT_REGION
  {
    assert StepAt(h, i, home, trail);
  }

  /** Which events of the cluster's region, and of us-east-1, any history leaves in the cache. */
  lemma {:induction false} HistoryContents(h: seq<Step>, home: string, trail: Trail, n: nat, e: Event)
    requires GoodTrail(trail, home) && History(h, home, trail) && n <= |h|
    ensures e.FromRegion(home) ==>
      (e in CacheAfter(h, n).event <==> e in trail.home && e.DuringAny(CacheAfter(h, n).period))
    ensures home != DEFAULT_REGION && e.FromRegion(DEFAULT_REGION) ==>
      (e in CacheAfter(h, n).event <==> e in trail.default && DefaultTimes(h, n, e.time.value) > 0)
    ensures e in CacheAfter(h, n).event ==> e.FromRegion(home) || e.FromRegion(DEFAULT_REGION)
  {
    HistoryCount(h, home, trail, n, e);
    CountIsMultiplicity(CacheAfter(h, n).event, e);
    OneRegion(trail, home, e);
    if e.time.Some? {
      var t := e.time.value;
      HistoryCovers(h, home, trail, n, t);
      StoredPositive(trail, home, HomeTimes(h, n, t), DefaultTimes(h, n, t), e);
    }
  }

  lemma StoredPositive(trail: Trail, home: string, ht: nat, dt: nat, e: Event)
    ensures StoredCopies(trail, home, ht, dt, e) > 0 <==>
      (ht > 0 && trail.home[e] > 0) || (home != DEFAULT_REGION && dt > 0 && trail.default[e] > 0)
  {
    ProductPositive(ht, trail.home[e]);
    ProductPositive(dt, trail.default[e]);
  }

  lemma {:induction false} HistoryRegions(h: seq<Step>, home: string, trail: Trail, n: nat)
    requires GoodTrail(trail, home) && History(h, home, trail) && n <= |h|
    ensures RegionSound(CacheAfter(h, n), trail.home, home, [])
    ensures RegionTrue(CacheAfter(h, n), trail.default, DEFAULT_REGION)
  {
    var d := CacheAfter(h, n);
    forall e: Event ensures SoundFor(d, trail.home, home, [], e) && TrueFor(d, trail.default, DEFAULT_REGION, e) {
      HistoryContents(h, home, trail, n, e);
      if e.time.Some? {
        HistoryCovers(h, home, trail, n, e.time.value);
      }
    }
  }

  // ----- Seconds owed to us-east-1 -----

  /** The cache claims t, but no second call ever fetched it. */
  ghost predicate Owed(h: seq<Step>, n: nat, t: int)
    requires n <= |h|
  {
    HomeTimes(h, n, t) > 0 && DefaultTimes(h, n, t) == 0
  }

  /** How many of the first n runs fetched t and ended in their second call. */
  ghost function StoppedTimes(h: seq<Step>, n: nat, t: int): nat
    requires n <= |h|
  {
    if n == 0 then 0
    else StoppedTimes(h, n - 1, t) +
         (if h[n - 1].end.StoppedSecond? && Fetches(h[n - 1].req, CacheAfter(h, n - 1).period, t) then 1 else 0)
  }

  /** The seconds owed are the pending seconds of the runs that ended in their second call, less what completed runs fetched. */
  lemma {:induction false} OwedIff(h: seq<Step>, n: nat, t: int)
    requires n <= |h|
    ensures HomeTimes(h, n, t) == StoppedTimes(h, n, t) + DefaultTimes(h, n, t)
    ensures Owed(h, n, t) <==> StoppedTimes(h, n, t) > 0 && DefaultTimes(h, n, t) == 0
    decreases n
  {
    if n > 0 {
      OwedIff(h, n - 1, t);
    }
  }

  ghost predicate OwedEvent(h: seq<Step>, n: nat, trail: Trail, e: Event)
    requires n <= |h|
  {
    e in trail.default && e.time.Some? && Owed(h, n, e.time.value)
  }

  /** The cache is sound after any history, except for exactly the us-east-1 events of owed seconds. */
  lemma {:induction false} HistorySoundIff(h: seq<Step>, home: string, trail: Trail, n: nat)
    requires GoodTrail(trail, home) && History(h, home, trail) && n <= |h|
    ensures Sound(CacheAfter(h, n), trail, home) <==>
      home == DEFAULT_REGION || forall e: Event :: !OwedEvent(h, n, trail, e)
  {
    var d := CacheAfter(h, n);
    HistoryNormal(h, home, trail, n);
    HistoryRegions(h, home, trail, n);
    forall e | e in d.event ensures e.FromRegion(home) || e.FromRegion(DEFAULT_REGION) {
      HistoryContents(h, home, trail, n, e);
    }
    if home != DEFAULT_REGION {
      forall e: Event ensures SoundFor(d, trail.default, DEFAULT_REGION, [], e) <==> !OwedEvent(h, n, trail, e) {
        HistoryContents(h, home, trail, n, e);
        if e.time.Some? {
          HistoryCovers(h, home, trail, n, e.time.value);
        }
      }
    }
  }

  /**
   A second once owed stays owed through all later runs, unless one of them completes and meets the refetching shape around
   it: no other run ever fetches the us-east-1 events of that second.
   */
  lemma {:induction false} OwedForGood(h: seq<Step>, home: string, trail: Trail, i: nat, n: nat, t: int)
    requires GoodTrail(trail, home) && History(h, home, trail) && i <= n <= |h| && Owed(h, i, t)
    ensures Owed(h, n, t) <==> forall j | i <= j < n :: !Repays(h, j, t)
    ensures HomeTimes(h, n, t) > 0
    decreases n
  {
    if n > i {
      OwedForGood(h, home, trail, i, n - 1, t);
      OwedNext(h, home, trail, n - 1, t);
    }
  }

  /** Run j completes and fetches the second again while it is cached. */
  ghost predicate Repays(h: seq<Step>, j: nat, t: int)
    requires j < |h|
  {
    h[j].end.Completed? && FetchesAgain(h[j].req, CacheAfter(h, j).period, t)
  }

  lemma OwedNext(h: seq<Step>, home: string, trail: Trail, i: nat, t: int)
    requires GoodTrail(trail, home) && History(h, home, trail) && i < |h| && HomeTimes(h, i, t) > 0
    ensures HomeTimes(h, i + 1, t) > 0
    ensures Owed(h, i + 1, t) <==> Owed(h, i, t) && !Repays(h, i, t)
  {
    FetchesKnown(h, home, trail, i, t);
  }

  lemma {:induction false} FetchesKnown(h: seq<Step>, home: string, trail: Trail, i: nat, t: int)
    requires GoodTrail(trail, home) && History(h, home, trail) && i < |h| && HomeTimes(h, i, t) > 0
    ensures Fetches(h[i].req, CacheAfter(h, i).period, t) <==> FetchesAgain(h[i].req, CacheAfter(h, i).period, t)
  {
    assert StepAt(h, i, home, trail);
    HistoryNormal(h, home, trail, i);
    HistoryCovers(h, home, trail, i, t);
    FetchesAgainIff(h[i].req, CacheAfter(h, i).period, t);
  }

  const EU := "eu-west-1"

  /** An event of us-east-1 in second 5. */
  function ExampleEvent(): Event {
    Event(None, Some(5), None, None, [], Some(Details(DEFAULT_REGION, "")))
  }

  function ExampleTrail(): Trail {
    Trail(multiset{}, multiset{ExampleEvent()})
  }

  function ExampleStep(): Step {
    var req := Period(0, 10);
    Step(WriteEventFilters([], []), req, NoMore, Answer(req, [PageError("throttled")], NoMore),
         StoppedSecond(PageOutcome(CacheData([req], []), [req], [], [req], [req]), PageStop([req], 0, [], [req])))
  }

  lemma ExampleHistory()
    ensures History([ExampleStep()], EU, ExampleTrail())
  {
    var s := ExampleStep();
    ExampleGoodStep();
    assert CacheAfter([s], 0) == EMPTY_CACHE;
    assert StepAt([s], 0, EU, ExampleTrail());
  }

  lemma ExampleGoodStep()
    ensures GoodStep(EMPTY_CACHE, ExampleStep(), EU, ExampleTrail())
  {
    var s := ExampleStep();
    ExampleFirst(s.filters, s.req, s.end.first);
    ExampleStop(s.filters, s.req, s.end.first.cache, s.defaultLookup, s.end.stop);
    NothingToAnswer(s.req);
  }

  lemma NothingToAnswer(p: Period)
    ensures Answers([], p, multiset{})
  {
  }

  lemma ExampleOwed()
    ensures OwedEvent([ExampleStep()], 1, ExampleTrail(), ExampleEvent())
  {
    var s := ExampleStep();
    assert Missing(s.req, []) == [s.req] && !ContainedInOne(s.req, []);
    SinglePiece(s.req, 5);
    assert CacheAfter([s], 0) == EMPTY_CACHE && Fetches(s.req, [], 5);
    assert HomeTimes([s], 0, 5) == 0 && DefaultTimes([s], 0, 5) == 0;
  }

  /**
   On a cluster in eu-west-1, a first run whose request 0-10 is answered for that region and fails for us-east-1: the event
   in second 5 is owed, and the cache is not sound.
   */
  lemma OwedExample()
    ensures History([ExampleStep()], EU, ExampleTrail())
    ensures OwedEvent([ExampleStep()], 1, ExampleTrail(), ExampleEvent())
    ensures !Sound(CacheAfter([ExampleStep()], 1), ExampleTrail(), EU)
  {
    ExampleHistory();
    ExampleOwed();
    HistorySoundIff([ExampleStep()], EU, ExampleTrail(), 1);
  }

  lemma ExampleFirst(f: WriteEventFilters, req: Period, first: PageOutcome)
    requires f == WriteEventFilters([], []) && req == Period(0, 10)
    requires first == PageOutcome(CacheData([req], []), [req], [], [req], [req])
    ensures PageRun(EMPTY_CACHE, [], NoMore, f, EU, req, first)
  {
    var added := CacheData(RecordedUpTo([req], 1), FetchedUpTo(NoMore, [req], 1));
    assert RecordedUpTo([req], 0) == [] && added.period == [req];
    assert FetchedUpTo(NoMore, [req], 0) == [] && added.event == [];
    assert PrintedUpTo(f, req, [], NoMore, [req], 0) == [];
    assert PrintedUpTo(f, req, [], NoMore, [req], 1) == [];
    assert [req][..0] == [] && Merged([req]) == [req];
    assert EMPTY_CACHE.period + added.period == [req] && EMPTY_CACHE.event + added.event == [];
    assert SortOf([req], [req], StartsBefore) && SortOf([req], [req], StartsAfter);
  }

  lemma ExampleStop(f: WriteEventFilters, req: Period, mid: CacheData, failing: Lookup, stop: PageStop)
    requires f == WriteEventFilters([], []) && req == Period(0, 10) && mid == CacheData([req], [])
    requires failing == Answer(req, [PageError("throttled")], NoMore) && stop == PageStop([req], 0, [], [req])
    ensures PageStopped(mid, [req], failing, f, DEFAULT_REGION, req, stop)
  {
    assert Pages(failing, req) == [PageError("throttled")] && Pages(failing, req)[0].PageError?;
    assert [req][..1] == [req];
    assert SortOf([req], [req], StartsAfter);
  }

  // ----- Completed histories -----

  ghost predicate AllCompleted(h: seq<Step>, n: nat)
    requires n <= |h|
  {
    forall i | 0 <= i < n :: h[i].end.Completed?
  }

  lemma {:induction false} NothingOwed(h: seq<Step>, n: nat, t: int)
    requires n <= |h| && AllCompleted(h, n)
    ensures DefaultTimes(h, n, t) == HomeTimes(h, n, t) && !Owed(h, n, t)
    decreases n
  {
    if n > 0 {
      NothingOwed(h, n - 1, t);
    }
  }

  /** After any number of completed runs the cache is sound. */
  lemma {:induction false} HistorySound(h: seq<Step>, home: string, trail: Trail, n: nat)
    requires GoodTrail(trail, home) && History(h, home, trail) && n <= |h| && AllCompleted(h, n)
    ensures Sound(CacheAfter(h, n), trail, home)
  {
    HistorySoundIff(h, home, trail, n);
    forall e: Event ensures !OwedEvent(h, n, trail, e) {
      if e.time.Some? {
        NothingOwed(h, n, e.time.value);
      }
    }
  }

  /** One of the first n runs fetched t again while it was cached. */
  ghost predicate FetchedAgain(h: seq<Step>, n: nat, t: int)
    requires n <= |h|
  {
    n > 0 &&
    (|| FetchedAgain(h, n - 1, t)
     || (!h[n - 1].end.StoppedFirst? && FetchesAgain(h[n - 1].req, CacheAfter(h, n - 1).period, t)))
  }

  /** A second is fetched more than once only by the refetching shape. */
  lemma {:induction false} FetchedOnceIff(h: seq<Step>, home: string, trail: Trail, n: nat, t: int)
    requires GoodTrail(trail, home) && History(h, home, trail) && n <= |h|
    ensures HomeTimes(h, n, t) <= 1 <==> !FetchedAgain(h, n, t)
    decreases n
  {
    if n > 0 {
      FetchedOnceIff(h, home, trail, n - 1, t);
      FetchesAt(h, home, trail, n - 1, t);
      if HomeTimes(h, n - 1, t) > 0 {
        FetchesKnown(h, home, trail, n - 1, t);
      }
    }
  }

  lemma {:induction false} FetchesAt(h: seq<Step>, home: string, trail: Trail, i: nat, t: int)
    requires GoodTrail(trail, home) && History(h, home, trail) && i < |h|
    ensures FetchesAgain(h[i].req, CacheAfter(h, i).period, t) ==> HomeTimes(h, i, t) > 0
  {
    HistoryCovers(h, home, trail, i, t);
  }

  /** The event's second was fetched again while it was cached, and some queried region holds the event. */
  ghost predicate DoublesEvent(h: seq<Step>, home: string, trail: Trail, n: nat, e: Event)
    requires n <= |h|
  {
    Copies(trail, home, e) > 0 && e.time.Some? && FetchedAgain(h, n, e.time.value)
  }

  lemma {:induction false} StoredOnceIff(h: seq<Step>, home: string, trail: Trail, n: nat, e: Event)
    requires GoodTrail(trail, home) && History(h, home, trail) && n <= |h| && AllCompleted(h, n)
    ensures StoredOnce(CacheAfter(h, n), trail, home, e) <==> !DoublesEvent(h, home, trail, n, e)
  {
    OneRegion(trail, home, e);
    HistoryCount(h, home, trail, n, e);
    if e.time.Some? {
      var t := e.time.value;
      HistoryCovers(h, home, trail, n, t);
      NothingOwed(h, n, t);
      FetchedOnceIff(h, home, trail, n, t);
      SameTimes(trail, home, HomeTimes(h, n, t), e);
      if Copies(trail, home, e) > 0 {
        OnceIff(HomeTimes(h, n, t), Copies(trail, home, e));
      }
    }
  }

  lemma SameTimes(trail: Trail, home: string, k: nat, e: Event)
    ensures StoredCopies(trail, home, k, k, e) == k * Copies(trail, home, e)
  {
    if home != DEFAULT_REGION {
      Distribute(k, trail.home[e], trail.default[e]);
    }
  }

  lemma Distribute(k: nat, a: nat, b: nat)
    ensures k * (a + b) == k * a + k * b
  {
  }

  /**
   After any number of completed runs nothing is stored twice if and only if no run fetched again a cached second that holds
   an event.
   */
  lemma {:induction false} HistoryExactIff(h: seq<Step>, home: string, trail: Trail, n: nat)
    requires GoodTrail(trail, home) && History(h, home, trail) && n <= |h| && AllCompleted(h, n)
    ensures Exact(CacheAfter(h, n), trail, home) <==> forall e: Event :: !DoublesEvent(h, home, trail, n, e)
  {
    HistorySound(h, home, trail, n);
    ExactIffStoredOnce(CacheAfter(h, n), trail, home);
    forall e: Event ensures StoredOnce(CacheAfter(h, n), trail, home, e) <==> !DoublesEvent(h, home, trail, n, e) {
      StoredOnceIff(h, home, trail, n, e);
    }
  }

  ghost predicate MeetsNoRefetch(h: seq<Step>, i: nat)
    requires i < |h|
  {
    !RefetchesSome(h[i].req, CacheAfter(h, i).period)
  }

  lemma {:induction false} NeverFetchedAgain(h: seq<Step>, n: nat, t: int)
    requires n <= |h| && forall i | 0 <= i < n :: MeetsNoRefetch(h, i)
    ensures !FetchedAgain(h, n, t)
    decreases n
  {
    if n > 0 {
      NeverFetchedAgain(h, n - 1, t);
      assert MeetsNoRefetch(h, n - 1);
    }
  }

  /** If no run meets a cache of the refetching shape, the cache holds every trail event of the covered seconds as often as the trail does. */
  lemma {:induction false} HistoryExact(h: seq<Step>, home: string, trail: Trail, n: nat)
    requires GoodTrail(trail, home) && History(h, home, trail) && n <= |h| && AllCompleted(h, n)
    requires forall i | 0 <= i < n :: MeetsNoRefetch(h, i)
    ensures Exact(CacheAfter(h, n), trail, home)
  {
    HistoryExactIff(h, home, trail, n);
    forall e: Event ensures !DoublesEvent(h, home, trail, n, e) {
      if e.time.Some? {
        NeverFetchedAgain(h, n, e.time.value);
      }
    }
  }

  // ----- What the runs of a history print -----

  lemma FirstPrintedIff(before: CacheData, s: Step, home: string, trail: Trail, e: Event)
    requires GoodTrail(trail, home) && NormalForm(before.period) && RegionSound(before, trail.home, home, [])
    requires GoodStep(before, s, home, trail) && !s.end.StoppedFirst?
    ensures e in s.end.first.printed <==>
      && Due(s.filters, s.req, trail.home, e)
      && Missing(s.req, before.period) != [] && !Lost(s.req, before.period, e.time.value)
  {
    PrintedIff(before, s.homeLookup, s.filters, home, s.req, s.end.first, trail.home, e);
  }

  /** What the second call prints, whatever us-east-1 events the cache lacks. */
  lemma SecondPrintedIff(before: CacheData, s: Step, home: string, trail: Trail, e: Event)
    requires GoodTrail(trail, home) && NormalForm(before.period) && RegionTrue(before, trail.default, DEFAULT_REGION)
    requires GoodStep(before, s, home, trail) && s.end.Completed? && home != DEFAULT_REGION
    ensures e in s.end.second.printed <==>
      && Due(s.filters, s.req, trail.default, e)
      && Missing(s.req, before.period) != [] && (FetchesEvent(s.req, before.period, e) || e in before.event)
  {
    var r := AsRun(s);
    FirstCall(before, r, home, trail);
    SecondCall(before, r, home, trail);
    MidTrue(before, r, home, trail);
    if e.FromRegion(DEFAULT_REGION) {
      MidCopies(before, r, home, trail, e);
      CountIsMultiplicity(before.event, e);
      CountIsMultiplicity(r.first.cache.event, e);
    }
    if ContainedInOne(s.req, before.period) {
      FullOutcome(before, s.homeLookup, s.filters, home, s.req, r.first);
      FullOverlapIff(s.req, before.period);
      FullPrintedIff(r.first.cache, s.defaultLookup, s.filters, DEFAULT_REGION, s.req, r.second, trail.default, e);
    } else {
      SecondAsked(before, r, home, trail);
      PartialPrinted(r.first.cache, r.first.missing, s.defaultLookup, s.filters, DEFAULT_REGION, s.req, r.second, trail.default, e);
      if e.time.Some? {
        ReverseCoversAt(Missing(s.req, before.period), e.time.value);
      }
    }
  }

  lemma MidTrue(before: CacheData, r: RunRecord, home: string, trail: Trail)
    requires GoodTrail(trail, home) && NormalForm(before.period) && RegionTrue(before, trail.default, DEFAULT_REGION)
    requires GoodRun(before, r, home, trail) && home != DEFAULT_REGION
    ensures RegionTrue(r.first.cache, trail.default, DEFAULT_REGION)
  {
    FirstCall(before, r, home, trail);
    forall e: Event ensures TrueFor(r.first.cache, trail.default, DEFAULT_REGION, e) {
      assert TrueFor(before, trail.default, DEFAULT_REGION, e);
      InAfter(before, r.first.asked, trail.home, r.first.cache, e);
    }
  }

  /**
   Transparency over whole histories, whatever was requested, filtered or cut short before: an ended first call prints exactly
   the due events outside lost seconds, unless DiffMultiple comes back empty; an ended second call prints exactly the due
   events that it fetches or that an earlier ended second call fetched.
   */
  lemma {:induction false} HistoryPrintedIff(h: seq<Step>, home: string, trail: Trail, i: nat, e: Event)
    requires GoodTrail(trail, home) && History(h, home, trail) && i < |h|
    ensures var s, c := h[i], CacheAfter(h, i).period;
      && (!s.end.StoppedFirst? ==>
           (e in s.end.first.printed <==>
             Due(s.filters, s.req, trail.home, e) && Missing(s.req, c) != [] && !Lost(s.req, c, e.time.value)))
      && (s.end.Completed? && home != DEFAULT_REGION ==>
           (e in s.end.second.printed <==>
             && Due(s.filters, s.req, trail.default, e) && Missing(s.req, c) != []
             && (Fetches(s.req, c, e.time.value) || DefaultTimes(h, i, e.time.value) > 0)))
  {
    var s, before := h[i], CacheAfter(h, i);
    assert StepAt(h, i, home, trail);
    HistoryNormal(h, home, trail, i);
    HistoryRegions(h, home, trail, i);
    if !s.end.StoppedFirst? {
      FirstPrintedIff(before, s, home, trail, e);
    }
    if s.end.Completed? && home != DEFAULT_REGION {
      SecondPrintedIff(before, s, home, trail, e);
      HistoryContents(h, home, trail, i, e);
    }
  }

  /**
   All that a completed run prints, in any history: what is due in the cluster's region outside lost seconds and, unless that
   region is us-east-1, what is due there and was ever fetched for it.
   */
  lemma {:induction false} OutputIff(h: seq<Step>, home: string, trail: Trail, i: nat, e: Event)
    requires GoodTrail(trail, home) && History(h, home, trail) && i < |h| && h[i].end.Completed?
    ensures var s, c := h[i], CacheAfter(h, i).period;
      e in RunPrinted(s.end) <==>
        && Missing(s.req, c) != []
        && (|| (Due(s.filters, s.req, trail.home, e) && !Lost(s.req, c, e.time.value))
            || (home != "us-east-1" && Due(s.filters, s.req, trail.default, e)
                && (Fetches(s.req, c, e.time.value) || DefaultTimes(h, i, e.time.value) > 0)))
  {
    HistoryPrintedIff(h, home, trail, i, e);
    assert StepAt(h, i, home, trail);
  }

  /** With completed runs before it, the second call misses exactly what the first does. */
  lemma {:induction false} CompletedPrintedIff(h: seq<Step>, home: string, trail: Trail, i: nat, e: Event)
    requires GoodTrail(trail, home) && History(h, home, trail) && i < |h| && AllCompleted(h, i + 1)
    requires home != DEFAULT_REGION
    ensures var s, c := h[i], CacheAfter(h, i).period;
      e in s.end.second.printed <==>
        Due(s.filters, s.req, trail.default, e) && Missing(s.req, c) != [] && !Lost(s.req, c, e.time.value)
  {
    var s, c := h[i], CacheAfter(h, i).period;
    assert StepAt(h, i, home, trail);
    HistoryPrintedIff(h, home, trail, i, e);
    HistoryNormal(h, home, trail, i);
    if Due(s.filters, s.req, trail.default, e) {
      var t := e.time.value;
      HistoryCovers(h, home, trail, i, t);
      NothingOwed(h, i, t);
      CoverageUpToLost(s.req, c, t);
      FullCovers(CacheAfter(h, i), s.req, t);
      if ContainedInOne(s.req, c) {
        WindowInOnePeriod(c, s.req);
      }
    }
  }

  /** A call that stops, on a cache in which region `region` may lack events: exactly what it has printed. */
  ghost predicate StopPrints(before: CacheData, s: Step, stop: PageStop, trail: multiset<Event>, e: Event) {
    var md := Reverse(Missing(s.req, before.period));
    && stop.order == md && stop.at < |md|
    && (e in stop.printed <==> Due(s.filters, s.req, trail, e) && StopShows(s.req, md, stop.at, e, e in before.event))
  }

  /**
   In any history, a call that stops has printed exactly the due events, cached or fetched, that lie later than the missing
   period it stops at; at the first missing period, the cached ones of the window before it.
   */
  lemma {:induction false} HistoryStoppedPrintedIff(h: seq<Step>, home: string, trail: Trail, i: nat, e: Event)
    requires GoodTrail(trail, home) && History(h, home, trail) && i < |h|
    ensures h[i].end.StoppedFirst? ==> StopPrints(CacheAfter(h, i), h[i], h[i].end.stop, trail.home, e)
    ensures h[i].end.StoppedSecond? ==> StopPrints(CacheAfter(h, i), h[i], h[i].end.stop, trail.default, e)
  {
    var s, before := h[i], CacheAfter(h, i);
    assert StepAt(h, i, home, trail);
    HistoryNormal(h, home, trail, i);
    HistoryRegions(h, home, trail, i);
    SoundIsTrue(before, trail.home, home, []);
    match s.end
    case Completed(_, _) =>
    case StoppedFirst(stop) =>
      StoppedPrintedIff(before, [], s.homeLookup, s.filters, home, s.req, stop, trail.home, e);
    case StoppedSecond(first, stop) =>
      SecondStopPrints(before, s, home, trail, first, stop, e);
  }

  lemma SecondStopPrints(before: CacheData, s: Step, home: string, trail: Trail, first: PageOutcome, stop: PageStop, e: Event)
    requires GoodTrail(trail, home) && NormalForm(before.period) && RegionTrue(before, trail.default, DEFAULT_REGION)
    requires GoodStep(before, s, home, trail) && s.end == StoppedSecond(first, stop)
    ensures StopPrints(before, s, stop, trail.default, e)
  {
    PageGrows(before, [], s.homeLookup, s.filters, home, s.req, first, trail.home);
    forall x: Event ensures TrueFor(first.cache, trail.default, DEFAULT_REGION, x) {
      assert TrueFor(before, trail.default, DEFAULT_REGION, x);
      InAfter(before, first.asked, trail.home, first.cache, x);
    }
    InAfter(before, first.asked, trail.home, first.cache, e);
    StoppedPrintedIff(first.cache, first.missing, s.defaultLookup, s.filters, DEFAULT_REGION, s.req, stop, trail.default, e);
    SecondStopOrder(before, s, home, trail, first, stop);
  }

  lemma SecondStopOrder(before: CacheData, s: Step, home: string, trail: Trail, first: PageOutcome, stop: PageStop)
    requires GoodTrail(trail, home) && NormalForm(before.period)
    requires GoodStep(before, s, home, trail) && s.end == StoppedSecond(first, stop)
    ensures stop.order == Reverse(Missing(s.req, before.period))
  {
    PageGrows(before, [], s.homeLookup, s.filters, home, s.req, first, trail.home);
    StoppedIs(first.cache, first.missing, s.defaultLookup, s.filters, DEFAULT_REGION, s.req, stop);
    if first.asked == [] {
      SamePeriods(before, first.cache, trail.home);
    } else {
      if ContainedInOne(s.req, before.period) {
        FullOutcome(before, s.homeLookup, s.filters, home, s.req, first);
      }
      FreshIsReverse(before, s.homeLookup, s.filters, home, s.req, first);
    }
  }

  /**
   The order of what an ended first call prints, in any history: newest first for full hits, and otherwise if and only if
   every window printed from the cache holds one copy of its events or events of one time only.
   */
  lemma {:induction false} HistoryNewestFirstIff(h: seq<Step>, home: string, trail: Trail, i: nat)
    requires GoodTrail(trail, home) && History(h, home, trail) && i < |h| && !h[i].end.StoppedFirst?
    ensures var s, before := h[i], CacheAfter(h, i);
      var first := s.end.first;
      NewestFirst(first.printed) <==>
        || ContainedInOne(s.req, before.period)
        || KeepsOrderUpTo(s.filters, before, home, s.req, Reverse(Missing(s.req, before.period)), |Missing(s.req, before.period)|)
  {
    var s, before := h[i], CacheAfter(h, i);
    var first := s.end.first;
    assert StepAt(h, i, home, trail);
    HistoryNormal(h, home, trail, i);
    FullOverlapIff(s.req, before.period);
    if ContainedInOne(s.req, before.period) {
      FullNewestFirst(before, s.homeLookup, s.filters, home, s.req, first);
    } else {
      PrintedNewestFirstIff(before, [], s.homeLookup, s.filters, home, s.req, first, trail.home);
    }
  }
}
