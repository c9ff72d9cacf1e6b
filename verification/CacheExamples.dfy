/** One call of getPages that prints a cached event twice, and its output out of order. */
module CacheExamples {
  import opened Wrappers
  import opened Periods
  import opened MissingPeriods
  import opened Events
  import opened Filters
  import opened Selection
  import opened EventCache
  import opened Sorting
  import opened WriteEvents
  import opened PageTheorems
  import opened CacheTheorems

  const REGION := "eu-west-1"

  function ExampleAt(t: int): Event {
    Event(None, Some(t), None, None, [], Some(Details(REGION, "")))
  }

  /** Cached periods 10-20 and 30-40, with one event in second 15 and one in second 16. */
  function ExampleCache(): CacheData {
    CacheData([Period(10, 20), Period(30, 40)], [ExampleAt(16), ExampleAt(15)])
  }

  function ExampleFilters(): WriteEventFilters {
    WriteEventFilters([], [])
  }

  function ExampleTrail(): multiset<Event> {
    multiset{ExampleAt(15), ExampleAt(16)}
  }

  /** What a call for 12-35 comes to: it asks for 21-29, where the trail holds nothing. */
  function ExampleOutcome(): PageOutcome {
    var md := [Period(21, 29)];
    var cached := CachedEvents(ExampleCache(), REGION, Period(12, 35));
    PageOutcome(CacheData([Period(10, 40)], ExampleCache().event), md,
                PrintedUpTo(ExampleFilters(), Period(12, 35), cached, NoMore, md, 1), md, md)
  }

  lemma ExampleMissing()
    ensures Missing(Period(12, 35), ExampleCache().period) == [Period(21, 29)]
    ensures !FullOverlap(Period(12, 35), ExampleCache().period)
    ensures TouchCount(ExampleCache().period, Period(12, 35)) == 2
  {
    var req, c, gap := Period(12, 35), ExampleCache().period, Period(21, 29);
    AddOneOrTwo([], gap, gap);
    AddOneOrTwo([gap], Period(12, 29), gap);
    assert c[0].Diff(req, NextPeriod(c, 0)) == [gap];
    assert DiffUpTo(req, c, 0) == DiffState([], false, false);
    assert DiffUpTo(req, c, 1) == DiffState([gap], true, false);
    assert c[1].Diff(req, NextPeriod(c, 1)) == [Period(12, 29)];
    assert DiffUpTo(req, c, 2) == DiffState([gap], true, false);
    assert c[..1] == [c[0]] && c[..1][..0] == [];
    assert TouchCount(c[..1], req) == 1;
  }

  lemma ExampleMerged()
    ensures Merged([Period(10, 20), Period(21, 29), Period(30, 40)]) == [Period(10, 40)]
  {
    var a, gap, b := Period(10, 20), Period(21, 29), Period(30, 40);
    var ps := [a, gap, b];
    assert ps[..2] == [a, gap] && ps[..2][..1] == [a] && ps[..2][..1][..0] == [];
    assert Merged([a]) == [a];
    assert Merged([a, gap]) == [Period(10, 29)];
  }

  lemma ExampleSorted()
    ensures SortOf([Period(10, 20), Period(21, 29), Period(30, 40)], ExampleCache().period + [Period(21, 29)], StartsBefore)
  {
    var a, gap, b := Period(10, 20), Period(21, 29), Period(30, 40);
    InsertPermutes([a, b], gap, 1);
    assert [a, b][..1] + [gap] + [a, b][1..] == [a, gap, b];
  }

  lemma {:induction false} SavedWith(before: CacheData, added: CacheData, after: CacheData, ps: seq<Period>)
    requires SortOf(ps, before.period + added.period, StartsBefore) && after.period == Merged(ps)
    requires SortOf(after.event, before.event + added.event, StoredBefore)
    ensures Saved(before, added, after)
  {
  }

  lemma ExampleSaved()
    ensures Saved(ExampleCache(), CacheData([Period(21, 29)], []), ExampleOutcome().cache)
  {
    ExampleMerged();
    ExampleSorted();
    var events := ExampleCache().event;
    assert events + [] == events;
    assert InOrder(events, StoredBefore);
    SavedWith(ExampleCache(), CacheData([Period(21, 29)], []), ExampleOutcome().cache,
              [Period(10, 20), Period(21, 29), Period(30, 40)]);
  }

  lemma SingleLists(p: Period)
    ensures RecordedUpTo([p], 1) == [p] && FetchedUpTo(NoMore, [p], 1) == []
  {
    assert RecordedUpTo([p], 0) == [] && FetchedUpTo(NoMore, [p], 0) == [];
  }

  lemma {:induction false} OutcomeWith(before: CacheData, f: WriteEventFilters, req: Period, out: PageOutcome)
    requires var md := out.order;
      && out.printed == PrintedUpTo(f, req, CachedEvents(before, REGION, req), NoMore, md, |md|)
      && out.missing == md && out.asked == md
      && Saved(before, CacheData(RecordedUpTo(md, |md|), FetchedUpTo(NoMore, md, |md|)), out.cache)
    ensures OutcomeOf(before, false, NoMore, f, REGION, req, out)
  {
  }

  lemma ExampleOutcomeOf()
    ensures OutcomeOf(ExampleCache(), false, NoMore, ExampleFilters(), REGION, Period(12, 35), ExampleOutcome())
  {
    ExampleSaved();
    SingleLists(Period(21, 29));
    OutcomeWith(ExampleCache(), ExampleFilters(), Period(12, 35), ExampleOutcome());
  }

  lemma RunWith(before: CacheData, f: WriteEventFilters, req: Period, out: PageOutcome)
    requires SortOf(out.order, Missing(req, before.period), StartsAfter) && !FullOverlap(req, before.period)
    requires OutcomeOf(before, false, NoMore, f, REGION, req, out)
    ensures PageRun(before, [], NoMore, f, REGION, req, out)
  {
  }

  lemma ExampleRun()
    ensures PageRun(ExampleCache(), [], NoMore, ExampleFilters(), REGION, Period(12, 35), ExampleOutcome())
  {
    ExampleMissing();
    ExampleOutcomeOf();
    RunWith(ExampleCache(), ExampleFilters(), Period(12, 35), ExampleOutcome());
  }

  lemma {:induction false} ExampleCount(e: Event)
    ensures Count(ExampleCache().event, e) == ExampleTrail()[e]
  {
    var x, y := ExampleAt(16), ExampleAt(15);
    assert [x, y][..1] == [x] && [x][..0] == [];
    assert Count([x], e) == if x == e then 1 else 0;
  }

  lemma ExampleInTrail(e: Event)
    ensures e in ExampleTrail() <==> e == ExampleAt(15) || e == ExampleAt(16)
  {
  }

  lemma ExampleExact()
    ensures RegionExact(ExampleCache(), ExampleTrail(), REGION, [])
  {
    var c := ExampleCache().period;
    assert c[0].Contains(15) && c[0].Contains(16);
    forall e: Event ensures ExactFor(ExampleCache(), ExampleTrail(), REGION, [], e) {
      ExampleCount(e);
      ExampleInTrail(e);
    }
  }

  lemma ExampleFaithful()
    ensures Faithful(NoMore, ExampleTrail(), ExampleOutcome().asked) && TrailOf(ExampleTrail(), REGION)
  {
    forall e: Event ensures !e.During(Period(21, 29)) || ExampleTrail()[e] == 0 {
      ExampleInTrail(e);
    }
    assert Answers([], Period(21, 29), ExampleTrail());
    forall e | e in ExampleTrail() ensures e.time.Some? && e.FromRegion(REGION) {
      ExampleInTrail(e);
    }
  }

  lemma ExampleReady()
    ensures Ready(ExampleCache(), [], Period(12, 35)) && ExampleFilters().Valid()
  {
  }

  lemma GoodWith(before: CacheData, f: WriteEventFilters, req: Period, out: PageOutcome, trail: multiset<Event>)
    requires f.Valid() && Ready(before, [], req) && Faithful(NoMore, trail, out.asked) && TrailOf(trail, REGION)
    requires PageRun(before, [], NoMore, f, REGION, req, out)
    ensures GoodCall(before, [], NoMore, f, REGION, req, out, trail)
  {
  }

  lemma ExampleGood()
    ensures GoodCall(ExampleCache(), [], NoMore, ExampleFilters(), REGION, Period(12, 35), ExampleOutcome(), ExampleTrail())
    ensures RegionExact(ExampleCache(), ExampleTrail(), REGION, [])
  {
    ExampleRun();
    ExampleExact();
    ExampleFaithful();
    ExampleReady();
    GoodWith(ExampleCache(), ExampleFilters(), Period(12, 35), ExampleOutcome(), ExampleTrail());
  }

  lemma ExampleWanted(e: Event)
    ensures Wanted(ExampleFilters(), e)
  {
  }

  lemma ExampleCopies()
    ensures Count(ExampleCache().event, ExampleAt(15)) == 1 && ExampleTrail()[ExampleAt(15)] == 1
    ensures CachedCopies(ExampleCache(), Period(12, 35), ExampleAt(15)) == 2
    ensures PrintedCopies(Period(12, 35), ExampleOutcome().asked, ExampleAt(15), 1, 2) == 2
    ensures Due(ExampleFilters(), Period(12, 35), ExampleTrail(), ExampleAt(15))
  {
    ExampleMissing();
    ExampleCount(ExampleAt(15));
    ExampleWanted(ExampleAt(15));
    SinglePiece(Period(21, 29), 15);
  }

  lemma ExampleAsks()
    ensures !IsFull(ExampleCache().period, [], Period(12, 35))
  {
    ExampleMissing();
  }

  lemma ExampleTwice()
    ensures Count(ExampleOutcome().printed, ExampleAt(15)) == 2
  {
    ExampleGood();
    ExampleAsks();
    ExampleCopies();
    PrintedTimes(ExampleCache(), [], NoMore, ExampleFilters(), REGION, Period(12, 35), ExampleOutcome(), ExampleTrail(),
                 ExampleAt(15));
  }

  lemma {:induction false} NotOnce(f: WriteEventFilters, req: Period, out: PageOutcome, trail: multiset<Event>,
                                   e: Event)
    requires Due(f, req, trail, e) && Count(out.printed, e) != trail[e]
    ensures !PrintsOnce(f, req, out, trail)
  {
  }

  /** Cache 10-20 and 30-40 and request 12-35: the event cached once in second 15 comes out twice. */
  lemma PrintedTwiceExample()
    ensures GoodCall(ExampleCache(), [], NoMore, ExampleFilters(), REGION, Period(12, 35), ExampleOutcome(), ExampleTrail())
    ensures RegionExact(ExampleCache(), ExampleTrail(), REGION, [])
    ensures Count(ExampleCache().event, ExampleAt(15)) == 1 && Count(ExampleOutcome().printed, ExampleAt(15)) == 2
    ensures !PrintsOnce(ExampleFilters(), Period(12, 35), ExampleOutcome(), ExampleTrail())
  {
    ExampleGood();
    ExampleCopies();
    ExampleTwice();
    NotOnce(ExampleFilters(), Period(12, 35), ExampleOutcome(), ExampleTrail(), ExampleAt(15));
  }

  /** The same call prints second 16, 15, 16, 15: not newest first. */
  lemma DisorderedExample()
    ensures GoodCall(ExampleCache(), [], NoMore, ExampleFilters(), REGION, Period(12, 35), ExampleOutcome(), ExampleTrail())
    ensures NewestFirst(ExampleCache().event) && !NewestFirst(ExampleOutcome().printed)
  {
    var f, req, md, x, y := ExampleFilters(), Period(12, 35), [Period(21, 29)], ExampleAt(16), ExampleAt(15);
    ExampleGood();
    ExampleMissing();
    ExampleWanted(x);
    ExampleWanted(y);
    var w := Between(req, md, 0);
    ShownIff(f, ExampleCache().event, REGION, req, w, x);
    ShownIff(f, ExampleCache().event, REGION, req, w, y);
    assert !KeepsOrderAt(f, ExampleCache(), REGION, req, md, 0);
    assert ExampleOutcome().asked == md;
    AskedNewestFirstIff(ExampleCache(), [], NoMore, f, REGION, req, ExampleOutcome(), ExampleTrail());
  }
}
