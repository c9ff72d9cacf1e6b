# A verified model of osdctl's CloudTrail cache, and of three smaller commands

`osdctl cloudtrail write-events` prints the write events of a cluster. Looking events up is slow, so the command keeps a
cache: a list of closed time periods together with the events in them. A run subtracts the cached periods from the
requested one, asks CloudTrail for the rest, prints cached and fetched events interleaved, newest first, and saves the
union. It does so for the cluster's region and then, with the same missing periods, for `us-east-1`.

The model says exactly when this agrees with the plain query it replaces: what one call prints, what it saves, what any
sequence of runs leaves in the cache, also when runs end with the process half-way - and where the code loses a second,
fetches one twice or prints an event twice.
Three smaller cores follow: the comparison of cluster operators in two snapshots, the patching of worker MachinePools
through requests that may fail, and the counting of AWS accounts per legal entity.

## How it is built

Each imperative operation of the source is a method (on a class, where the source has an object with fields), proved to
compute a function or to satisfy a predicate of its inputs and old state. The theorems are lemmas about those functions.

| file | what it covers |
|---|---|
| `Periods.dfy` | `Overlap`, `Diff`, `Merge`; normal forms: sorted, at least one whole uncovered second between any two periods |
| `MissingPeriods.dfy` | `DiffMultiple`: its exact meaning, one-second holes, lost seconds, refetched seconds |
| `MergedGaps.dfy`, `Granularity.dfy` | merging, `DiffMultiple` and its full flag at ticks finer than a second |
| `Events.dfy`, `Filters.dfy` | events, pages, inclusion and exclusion filters |
| `EventCache.dfy` | the cache file, `Save`, and the loops that select cached events |
| `WriteEvents.dfy` | `GetEvents`, `getPages` and the two-region part of `run`, as methods and as functions |
| `PageTheorems.dfy` | one call: backdating, what is saved, how often each event is printed |
| `CacheTheorems.dfy` | one call compared with the trail: transparency, multiplicities, convergence, order |
| `CacheExamples.dfy` | a call that prints an event twice and out of order |
| `RunTheorems.dfy` | completed runs: invariants, coverage, conservation, the second region |
| `HistoryTheorems.dfy` | every sequence of runs, however each ends: coverage, conservation, transparency, seconds owed |
| `OperatorDiff.dfy` | `compareOperators` and its laws |
| `WorkerPools.dfy` | `migrateWorkersToIMDSv2` under failing requests |
| `PoolCounts.dfy` | the counting, sorting and cutting of the account pools |
| `Selection.dfy`, `Sorting.dfy`, `Wrappers.dfy` | filtering loops as `Select`, multiplicities as `Count`, the contract of Go's sort, options |

Terms used throughout:

- A *one-second hole* is an uncached second of the request whose two neighbours are each cached or outside the request.
- `Missing(req, c)` is what `DiffMultiple` returns for request `req` and cached periods `c`.
- A second is *lost* when it is a one-second hole, some cached period touches the request, and no refetch sweeps it up: it
  is requested, not cached, and not returned.
- `Refetches` is the one shape of cache for which seconds already cached are returned again.
- The *trail* is a fixed multiset of events per region; an API call is *faithful* when its pages deliver exactly the
  trail's events of the period, newest first within and across pages. Theorems that compare with the trail assume it of the calls
  that are made.
- An event is *due* when it is in the trail, lies in the request and passes the filters.
- A run *completes*, or it *stops*: the process ends in its first or in its second call, when a page fails.
- A second is *owed* to us-east-1 when the cache claims it but no second call that came to its end ever fetched it.

Sorting is known by its contract alone (a permutation in order), so nothing depends on what an unstable sort does with
ties. Maps are walked in an arbitrary order.

## What the proofs found

- `DiffMultiple` drops missing pieces of a single second (cmd/cloudtrail/cache.go:171). With cache 10-20, 30-40, 42-50 and
  request 10-60, second 41 is never fetched (`LostSecondExample`). With cache 10-20 and request 10-21 the answer is
  empty although the hit is not full, so the call prints nothing at all (`EmptyAnswerExample`, `PrintedIff`).
- The same rule can make seconds that are cached come back as missing: cache 5-20, 22-40 and request 10-40 fetches 10-21
  again and stores those events twice (`RefetchExample`, `RefetchesSomeIff`, `HistoryCount`). The complement is exact if and
  only if nothing cached touches the request or the request has no one-second hole (`ExactComplementIff`).
- `FilterByPeriod` yields cached events once per cached period that touches the request, and a second fetched again can be
  printed from the cache besides. For every valid request that is not a full hit, each due event comes out exactly once if
  and only if its second is not lost, the answer is not empty and, where it is cached, only one cached period touches the
  request or it is fetched again and is not the request's first second (`PrintsOnceIff`; `PrintsOnceWithoutHoles` for
  requests without holes; `PrintedTwiceExample`). Repeated windows break the newest-first order exactly when one shows events
  of two times (`PrintedNewestFirstIff`, `DisorderedExample`).
- When a page fails, the goroutine of `GetEvents` passes the error on and then reads the events of an output that is not
  there (cmd/cloudtrail/event.go:82-89): the process ends. In the first call that leaves the stored cache as it was. In the
  second call it leaves the missing periods recorded for both regions without the us-east-1 events that were to be fetched,
  and no later run fetches those, except a completed one that meets the refetching shape (`StepEffect`, `OwedForGood`,
  `HistorySoundIff`, `OwedExample`).
- The default request starts and ends between two seconds, and so do the periods it leaves. A later request that reaches
  beyond either end of such a period skips the open second next to it while the saved cache claims it: with a first run of
  `--since 1h` and then one of `--since 2h` the second of an event just before the first run's start can be lost for good, as
  can one just after its end (`SkippedInstants`, `SkipsEventIff`, `SkippedBeforeExample`, `SkippedAfterExample`). A request
  that reaches less than a second beyond the end is flagged as a full hit although its end is not cached, unless it starts
  together with the cached period (`FullFlagIff`, `FalseFlagExample`).
- At such granularity `Diff` returns a period that ends before it starts exactly when the request starts less than a second
  before a cached period that touches it and is not the request itself (`DiffValidIff`), and merged periods touch exactly around a gap of one second with others
  strictly inside (`MergedApartIff`).
- A start after the end is not rejected when both are given: the check at cmd/cloudtrail/time.go:69-71 stands behind branches
  that have all returned. If a cached period touches such a request, it counts as a full hit and nothing happens; otherwise
  the API is asked for it, and if it answers, the request is recorded as it is and the cache is in normal form no longer
  (`InvertedRequest`).
- A worker pool that cannot be read back after its first patch keeps the override annotation, and since it now requires
  IMDSv2 no later run ever picks it again (`LeakIsPermanent`).
- Operator conditions are shown joined by ", ", so a modified entry can show the same text before and after
  (`ConditionsAlikeExample`).
- Legal entities are told apart by id and name joined with a space, so two of them can share one row (`SharedKeyIff`). The
  totals under the account table are those of the rows shown, not of the pool (`PrintedTotalIff`).

## Model

| member | source | states |
|---|---|---|
| `Periods.OverlapIff` | cmd/cloudtrail/time.go:148-167 | Two valid periods overlap exactly when their seconds together form one period, that is, when no whole second separates them |
| `Periods.DiffCovers` | cmd/cloudtrail/time.go:195-221 | For a cached period that touches the request, `Diff` returns valid periods covering exactly the requested seconds it does not hold, up to the next cached period |
| `Periods.Merge` | cmd/cloudtrail/time.go:172-193 | The loop that widens the last element in place computes the fold `Merged`, at any granularity |
| `Periods.MergedCovers` | cmd/cloudtrail/time.go:153-193 | At any tick granularity, merging sorted valid periods loses no instant, and adds exactly those strictly inside a gap of exactly one second that no period enters |
| `Periods.MergedNormal` | cmd/cloudtrail/time.go:172-193 | On whole seconds the result of merging sorted valid periods is in normal form |
| `Periods.NormalFormUnique` | cmd/cloudtrail/time.go:128-193 | Two normal forms that cover the same seconds are the same list |
| `Periods.MergeCanonical` | cmd/cloudtrail/cache.go:107-111 | Any two sorted lists of valid periods covering the same seconds merge to the identical list, so the unstable sort cannot matter |
| `Periods.MergeFixpoint` | cmd/cloudtrail/time.go:172-193 | A sorted list of valid periods is left alone by merging if and only if it is in normal form; merging is idempotent |
| `Periods.WindowInOnePeriod` | cmd/cloudtrail/time.go:172-193 | A window is fully covered by a normal form if and only if a single period of it contains the window |
| `Periods.DiffValidIff` | cmd/cloudtrail/time.go:198-221 | At any tick granularity `Diff` returns valid periods unless the request starts less than a second before a cached period that touches it and differs from it |
| `MergedGaps.MergedSpaced` | cmd/cloudtrail/time.go:172-193 | At any granularity merging leaves disjoint periods in order, no two neighbours exactly a second apart |
| `MergedGaps.MergedApartIff` | cmd/cloudtrail/time.go:172-193 | At any granularity no two merged periods touch if and only if no gap of exactly one second holds another period strictly inside while nothing reaches across its edges |
| `MergedGaps.TouchingExample` | cmd/cloudtrail/time.go:172-193 | Three periods of which the outer two touch after merging |
| `Granularity.FullFlagIff` | cmd/cloudtrail/cache.go:148-184 | At any granularity the full flag is raised for every contained request and otherwise exactly for a near miss: it is right if and only if the request is contained or nearly missed nowhere |
| `Granularity.OnlyAnswer` | cmd/cloudtrail/cache.go:148-184 | What `DiffMultiple` answers and flags for any request that touches one cached period: one piece on each side, a second away, dropped if it is a single instant |
| `Granularity.UnservedInstants` | cmd/cloudtrail/cache.go:148-184 | Which instants of such a request are then neither cached nor asked for |
| `Granularity.SavedMerged` | cmd/cloudtrail/cache.go:107-111 | What such a call saves: the cached periods with the touched one grown over what was recorded, unless an earlier period swallows the piece before it |
| `Granularity.SkippedInstants` | cmd/cloudtrail/write-events.go:164-184 | For every request that touches one cached period, exactly which unserved instants the saved cache claims: those of the open second before that period and after it, as far as the request reaches |
| `Granularity.SkipsEventIff` | cmd/cloudtrail/write-events.go:164-184 | Some whole second is among them if and only if that period starts, or ends, between two seconds and the request reaches far enough on that side |
| `Granularity.ClaimedByGaps` | cmd/cloudtrail/cache.go:107-111 | For any request whose recorded pieces are valid: beyond cached and recorded periods the saved cache claims exactly the instants strictly inside one-second gaps between them |
| `Granularity.InvertedPieceExample` | cmd/cloudtrail/time.go:206-208 | A request for which `Diff` returns a period that ends before it starts |
| `Granularity.FalseFlagExample` | cmd/cloudtrail/cache.go:160-166 | A request flagged as a full hit whose end, a whole second, is not cached |
| `Granularity.SkippedBeforeExample` | cmd/cloudtrail/write-events.go:164-184 | A cache and an earlier-starting request for which a whole second before the cached period is claimed and not served |
| `Granularity.SkippedAfterExample` | cmd/cloudtrail/write-events.go:164-184 | A cache and a request for which a whole second after the cached period is claimed and not served |
| `MissingPeriods.PeriodOverlap` | cmd/cloudtrail/cache.go:187-196 | Despite its name, true exactly when the period touches none of the missing periods |
| `MissingPeriods.DiffMultiple` | cmd/cloudtrail/cache.go:148-185 | The nested loops compute `Missing` and `FullOverlap`, for every cache and request |
| `MissingPeriods.FullOverlapIff` | cmd/cloudtrail/cache.go:160-184 | Despite the mixed condition, the full flag is true if and only if one cached period contains the request; the request is then returned whole |
| `MissingPeriods.DiffMultipleMeaning` | cmd/cloudtrail/cache.go:148-196 | Which seconds come back, for every normal-form cache and valid request that is not a full hit: the whole request if nothing touches it; otherwise exactly the uncached seconds that are not one-second holes, and those swept up by a refetch |
| `MissingPeriods.DiffMultipleShape` | cmd/cloudtrail/cache.go:148-196 | The returned periods are in normal form, inside the request, and all but the first start right after a cached second |
| `MissingPeriods.RefetchesHole` | cmd/cloudtrail/cache.go:170-175 | The refetching shape is a one-second hole, and the cached second before it is asked for again |
| `MissingPeriods.ExactComplementIff` | cmd/cloudtrail/cache.go:148-196 | The result is exactly the requested uncached seconds if and only if nothing cached touches the request or it has no one-second hole |
| `MissingPeriods.CoverageUpToLost` | cmd/cloudtrail/cache.go:153-184 | Every requested second is cached or returned, except exactly the lost ones |
| `MissingPeriods.NoHoleNoLoss` | cmd/cloudtrail/cache.go:153-184 | Without one-second holes nothing is lost, nothing cached is returned, and a request that is not a full hit returns something |
| `MissingPeriods.LostSecondExample` | cmd/cloudtrail/cache.go:171-174 | A cache and a request for which a second is neither cached nor returned |
| `MissingPeriods.EmptyAnswerExample` | cmd/cloudtrail/cache.go:171-184 | A request that is not a full hit and for which nothing is returned |
| `MissingPeriods.RefetchExample` | cmd/cloudtrail/cache.go:170-175 | A cache and a request for which a cached second is returned |
| `MissingPeriods.RefetchesSomeIff` | cmd/cloudtrail/cache.go:170-175 | Something cached is returned if and only if the cache has the refetching shape somewhere |
| `MissingPeriods.ReturnedAgainIff` | cmd/cloudtrail/cache.go:170-175 | A given cached second is returned exactly when a refetch sweeps it up |
| `MissingPeriods.EmptyAnswerIff` | cmd/cloudtrail/cache.go:170-184 | For a request that is not a full hit, nothing is returned exactly when a cached period touches it and every missing second is lost |
| `MissingPeriods.InvertedAnswer` | cmd/cloudtrail/cache.go:148-184 | For every normal-form cache, a request whose start is after its end is returned as it is, and flagged as a full hit exactly when a cached period touches it |
| `Events.FetchedConcat` | cmd/cloudtrail/write-events.go:147-156 | What arrives over a list of pages is what arrives over its parts, one after the other: no page is dropped |
| `Events.FetchedSingle` | cmd/cloudtrail/write-events.go:149-155 | A page contributes all its events, a failed page none |
| `Events.NewestFirstMeans` | cmd/cloudtrail/cache.go:116-124 | Newest first, told by the times: nothing comes after something older, and nothing with a time after something without |
| `Filters.FilterParts` | cmd/cloudtrail/filter.go:247-249 | A filter with a separator is its key, a '=' and its value, and the key holds no '=' |
| `Filters.PartsFound` | cmd/cloudtrail/filter.go:247-249 | From a key without '=' and any value, joined by '=', exactly these two are parsed |
| `Filters.ValidFiltersIff` | cmd/cloudtrail/filter.go:257-277 | The filters that validation accepts are exactly the strings key=value with one of the five keys username, event, resource-name, resource-type and arn |
| `Filters.ValidateFilters` | cmd/cloudtrail/filter.go:257-277 | Succeeds if and only if every filter has the form key=value with an allowed key; otherwise reports the first that does not, and why |
| `Filters.ParseFilters` | cmd/cloudtrail/filter.go:244-253 | Computes `Parsed`: the keys given, each with its values (`FilterParts`, `PartsFound` and `ParsedInOrder` say what these are) |
| `Filters.ParsedInOrder` | cmd/cloudtrail/filter.go:244-253 | The values of a key are those of the filters that give it, in their order |
| `Filters.InclusionFilter` | cmd/cloudtrail/filter.go:103-170 | Keeps, in order, the events that match under every key, whatever the order of the keys |
| `Filters.ExclusionFilter` | cmd/cloudtrail/filter.go:174-241 | Keeps, in order, the events that match under no key, whatever the order of the keys |
| `Filters.ApplyWriteFilters` | cmd/cloudtrail/filter.go:89-99 | Inclusion, then exclusion, each only where filters are given, keeps exactly the events that pass both |
| `Filters.IncludedExcluded` | cmd/cloudtrail/filter.go:87-99 | Inclusion and exclusion commute |
| `Filters.SatisfiesMeans` | cmd/cloudtrail/filter.go:106-153 | What each of the five keys asks of the fields of an event, for every value, also one with a '=' in it |
| `Filters.ParsedMatches` | cmd/cloudtrail/filter.go:106-153 | The match function of a key accepts an event if and only if one of the filters given for that key names a value of the event |
| `Filters.PassesIffWanted` | cmd/cloudtrail/filter.go:101-241 | An event passes if and only if it has some value of every included key and no excluded value |
| `Filters.FilteredCount` | cmd/cloudtrail/filter.go:89-99 | A wanted event comes out as often as it goes in, any other event never |
| `Filters.FilteredConcat` | cmd/cloudtrail/filter.go:89-99 | Filtering distributes over concatenation, so filtering segment by segment loses nothing |
| `Filters.ApplyFilters` | cmd/cloudtrail/filter.go:27-52 | Succeeds if and only if no filter fails on a record it is consulted for; keeps the records all filters accept; otherwise reports the first failure |
| `Filters.VerdictMeans` | cmd/cloudtrail/filter.go:33-44 | A record is kept if and only if every filter says so; otherwise the first that does not decides |
| `EventCache.Cache.EnsureFilenameExist` | cmd/cloudtrail/cache.go:38-73 | Creates an empty cache file where there is none and changes no existing one |
| `EventCache.Cache.Read` | cmd/cloudtrail/cache.go:77-94 | Loads the stored periods and events; fails without changing anything when there is no file |
| `EventCache.Cache.Save` | cmd/cloudtrail/cache.go:99-144 | Stores the merged, sorted periods and the events sorted newest first, of the cache and the new data together |
| `EventCache.Cache.FilterByPeriod` | cmd/cloudtrail/cache.go:198-213 | Yields the events of the requested period once for every cached period that touches it |
| `EventCache.FilterByRegion` | cmd/cloudtrail/cache.go:215-227 | Keeps, in order, the events whose details can be read and name the region |
| `EventCache.FilterEventsAfter` | cmd/cloudtrail/cache.go:230-238 | Keeps, in order, the events at or after the instant; events without a time are dropped |
| `EventCache.FilterEventsBefore` | cmd/cloudtrail/cache.go:241-249 | Keeps, in order, the events at or before the instant; events without a time are dropped |
| `EventCache.CachedEventsCount` | cmd/cloudtrail/cache.go:198-227 | How often the cache yields an event: if its details name the region and its time lies in the request, once per stored copy and touching cached period, otherwise never |
| `EventCache.TouchCountIsNumber` | cmd/cloudtrail/cache.go:200-201 | The factor in this is the number of cached periods that touch the request |
| `EventCache.WindowCount` | cmd/cloudtrail/cache.go:229-249 | What the two time filters keep together: every copy of the events timed between the two instants, both included, and nothing else |
| `EventCache.TouchCountFull` | cmd/cloudtrail/cache.go:198-213 | In a normal form exactly one period touches a request that lies within one period |
| `EventCache.CachedInNewestFirst` | cmd/cloudtrail/cache.go:198-213 | If at most one cached period touches the request, the cached events keep their newest-first order |
| `EventCache.SavedCovers` | cmd/cloudtrail/cache.go:107-131 | Saving valid periods leaves a normal form covering the old and new seconds and no others |
| `EventCache.SavedPeriodsUnique` | cmd/cloudtrail/cache.go:107-124 | However the sorts leave ties, the saved periods are the same, and the saved events are the same up to order |
| `WriteEvents.PagesFound` | cmd/cloudtrail/event.go:76-95 | Every page of the first answer for a period arrives, and nothing for a period without an answer |
| `WriteEvents.EventAPI.GetEvents` | cmd/cloudtrail/event.go:60-100 | Sends the pages in order up to and including the first failing one, and goes down exactly when there is one |
| `WriteEvents.WriteEventsOptions.Fetch` | cmd/cloudtrail/write-events.go:147-156 | One request to the API; comes to its end exactly when no page fails, with `FetchedEvents` of the answer |
| `WriteEvents.WriteEventsOptions.PrintCached` | cmd/cloudtrail/write-events.go:138-145 | Prints the matching cached events of a window, both ends included |
| `WriteEvents.WriteEventsOptions.Advance` | cmd/cloudtrail/write-events.go:126-180 | One iteration: prints the head window, then, unless a page fails, the fetched events and the window down to the next missing period, and returns the period backdated |
| `WriteEvents.WriteEventsOptions.FetchMissing` | cmd/cloudtrail/write-events.go:120-181 | The loop over the missing periods: on a full hit one print and no request; otherwise every period fetched in order, printed segment by segment and recorded, up to the first answer with a failing page |
| `WriteEvents.WriteEventsOptions.PlanMissing` | cmd/cloudtrail/write-events.go:109-118 | Missing periods carried over are kept, otherwise computed; then sorted latest first |
| `WriteEvents.WriteEventsOptions.GetPages` | cmd/cloudtrail/write-events.go:94-189 | The whole call computes `PageCall`: what it prints, asks for, saves and leaves pending, for every cache, request, filter and answer; a call that stops saves nothing |
| `WriteEvents.WriteEventsOptions.Run` | cmd/cloudtrail/write-events.go:257-280 | Both regional calls, the second with a new API, the saved cache and the pending periods of the first; where a run stops, what it printed and what the file then holds |
| `PageTheorems.AnswersMean` | cmd/cloudtrail/write-events.go:147-156 | However the trail's events of a period are split into pages, newest first within and across them, what is gathered is newest first and holds each of them as often as the trail |
| `PageTheorems.EndsIff` | cmd/cloudtrail/write-events.go:94-189 | A call comes to its end if and only if one cached period contains the request or no answer to what is pending or missing holds an error |
| `PageTheorems.FreshPending` | cmd/cloudtrail/write-events.go:111-118 | Sorted latest first, freshly computed periods are `DiffMultiple`'s result reversed, whatever the sort does |
| `PageTheorems.BackdatingClaimsNothing` | cmd/cloudtrail/write-events.go:164-179 | Recording the missing periods backdated covers no second beyond the cached and the missing ones |
| `PageTheorems.PageGrows` | cmd/cloudtrail/write-events.go:94-189 | Every call, hit, miss or continuation, leaves a normal form whose coverage grows by exactly the periods asked for and whose events grow by exactly the trail's in them |
| `PageTheorems.WindowsOnce` | cmd/cloudtrail/write-events.go:138-177 | Every event of the request outside the missing periods lies in exactly one of the windows printed from the cache |
| `PageTheorems.AskedShares` | cmd/cloudtrail/write-events.go:138-177 | Of the seconds asked for, the windows print from the cache only the end of the latest missing period, if it is not the request's end, and the start of the earliest |
| `PageTheorems.PrintedCount` | cmd/cloudtrail/write-events.go:125-181 | How often the loop prints an event: per window and cached copy, and per fetched copy, if it passes the filters |
| `CacheTheorems.FullHit` | cmd/cloudtrail/write-events.go:128-136 | When one cached period contains the request: no API call, same periods, and every matching cached event of region and window printed as often as it is cached |
| `CacheTheorems.PartialPrinted` | cmd/cloudtrail/write-events.go:115-181 | Whatever the cache lacks: a call that is not a full hit prints exactly the due events that are cached or asked for, and nothing if it asks for nothing |
| `CacheTheorems.PartialHit` | cmd/cloudtrail/write-events.go:115-181 | From a cache sound up to the pending periods, a call that is not a full hit prints exactly the due events in seconds cached or asked for, and nothing if it asks for nothing |
| `CacheTheorems.PrintedIff` | cmd/cloudtrail/write-events.go:94-189 | A fresh call on a sound cache prints an event if and only if it is due, its second is not lost and something was missing or the hit was full |
| `CacheTheorems.TransparentIff` | cmd/cloudtrail/write-events.go:94-189 | The set of printed events is that of an uncached, filtered query if and only if no due event is in a lost second or behind an empty answer |
| `CacheTheorems.TransparentWithoutLoss` | cmd/cloudtrail/write-events.go:94-189 | If the request loses no second, the call is transparent for every trail and filter |
| `CacheTheorems.PrintedTimes` | cmd/cloudtrail/write-events.go:115-181 | How often any call that is not a full hit prints an event, whatever the cache holds: once per copy fetched, plus the cached copies at the edges of the missing periods; once per touching period and cached copy if not asked for |
| `CacheTheorems.FreshTimes` | cmd/cloudtrail/write-events.go:109-181 | The same from an exact cache, told from cache and request: lost, uncached, cached or fetched again, for every valid request that is not a full hit |
| `CacheTheorems.PrintsOnceIff` | cmd/cloudtrail/cache.go:198-213 | For every valid request that is not a full hit: each due event is printed once if and only if its second is not lost, the answer is not empty and, if it is cached, one period touches the request or it is fetched again past the request's first second |
| `CacheTheorems.PrintsOnceWithoutHoles` | cmd/cloudtrail/cache.go:198-213 | Without holes: if and only if at most one cached period touches the request or no due event is cached |
| `CacheTheorems.Converges` | cmd/cloudtrail/write-events.go:111-184 | After a fresh call the request is a full hit if and only if it lost no second; then so is every valid request inside it |
| `CacheTheorems.PrintedNewestFirstIff` | cmd/cloudtrail/write-events.go:118-181 | The output of a call that is not a full hit is newest first if and only if every window around the periods it has to ask for, told from cache, request and pending periods, holds one copy of its events, or matching events of one time only |
| `CacheTheorems.PrintedNewestFirst` | cmd/cloudtrail/write-events.go:118-181 | If at most one cached period touches the request, the whole output of a call is newest first |
| `CacheTheorems.EndedAsks` | cmd/cloudtrail/write-events.go:120-148 | A call that ends has asked for nothing on a full hit and otherwise for each pending or missing period, latest first |
| `CacheTheorems.StoppedAsks` | cmd/cloudtrail/event.go:82-89 | A call that stops has asked for these as far as the first whose answer holds an error |
| `CacheTheorems.StoppedPrintedIff` | cmd/cloudtrail/write-events.go:138-177 | Exactly what a call has printed that stops: the due events, cached or fetched, later than the missing period it stops at; at the first one, the cached events of the window before it |
| `CacheExamples.PrintedTwiceExample` | cmd/cloudtrail/cache.go:198-213 | A cache, a request and a completed call that prints an event twice that is cached once |
| `CacheExamples.DisorderedExample` | cmd/cloudtrail/write-events.go:171-177 | The same call's output is not newest first although the cached events are |
| `CacheTheorems.InvertedRequest` | cmd/cloudtrail/write-events.go:109-184 | A completed call for a request whose start is after its end leaves a normal form if and only if a cached period touches the request; then nothing is asked for, printed or changed, and otherwise the request is recorded as it is |
| `RunTheorems.SecondCall` | cmd/cloudtrail/write-events.go:268-278 | The second region is asked for exactly the periods the first was asked for |
| `RunTheorems.RunSound` | cmd/cloudtrail/write-events.go:260-280 | A run keeps the cache sound; between its calls the second region lacks at most the events of the pending periods |
| `RunTheorems.RunCovers` | cmd/cloudtrail/write-events.go:260-280 | A run adds to the covered seconds exactly what `DiffMultiple` returns for the cache the run found |
| `RunTheorems.RunPrintedIff` | cmd/cloudtrail/write-events.go:260-280 | Exactly what a run prints of each region from a sound cache, whatever filters filled it |
| `RunTheorems.RunExact` | cmd/cloudtrail/write-events.go:260-280 | A run that meets no cache of the refetching shape stores nothing twice |
| `RunTheorems.RunAdds` | cmd/cloudtrail/write-events.go:260-280 | A run adds one copy of the trail of both regions in the seconds it fetches, and nothing else |
| `RunTheorems.RunExactIff` | cmd/cloudtrail/write-events.go:260-280 | A run stores nothing twice if and only if it fetches no cached second again that holds an event |
| `RunTheorems.SecondRegionOnceIff` | cmd/cloudtrail/write-events.go:268-278 | For every valid request that is not a full hit: when the second call prints each due event exactly once, by the periods the first call left |
| `RunTheorems.SecondRegionOnce` | cmd/cloudtrail/write-events.go:268-278 | After a first call that lost no second, the second region's output is newest first, and holds every due event once unless the request's first second was cached, is fetched again and holds one |
| `RunTheorems.RepeatIsFullHit` | cmd/cloudtrail/write-events.go:111-136 | After a run that lost no second, a run for any request inside it calls the API for nothing, leaves the periods alone and prints exactly what is due in both regions |
| `HistoryTheorems.StepEffect` | cmd/cloudtrail/write-events.go:94-280 | What any run does to the stored cache: a stop in the first call changes nothing, a stop in the second records the fetched seconds with the first region's events alone, a completed run records them with both |
| `HistoryTheorems.HistoryNormal` | cmd/cloudtrail/cache.go:107-131 | After any runs of valid requests, however they ended, the cached periods are in normal form and the events newest first |
| `HistoryTheorems.HistoryCovers` | cmd/cloudtrail/write-events.go:94-280 | A second is covered if and only if a first call that ended fetched it, and only requested seconds are |
| `HistoryTheorems.HistoryCount` | cmd/cloudtrail/cache.go:113-131 | For all valid requests and however the runs end: each event of the cluster's region is stored once for every ended first call that fetched its second, each of us-east-1 once for every ended second call that did, per copy in the trail |
| `HistoryTheorems.HistoryContents` | cmd/cloudtrail/write-events.go:94-280 | Which events of either region are cached: those of the cluster's region in covered seconds, those of us-east-1 in seconds an ended second call fetched |
| `HistoryTheorems.OwedIff` | cmd/cloudtrail/write-events.go:268-278 | The seconds owed to us-east-1 are the pending seconds of the runs that stopped in their second call, less those a completed run fetched |
| `HistoryTheorems.OwedForGood` | cmd/cloudtrail/write-events.go:109-113 | A second once owed stays owed through all later runs unless a completed one fetches it again while it is cached |
| `HistoryTheorems.HistorySoundIff` | cmd/cloudtrail/write-events.go:94-280 | After any history the cache is sound if and only if no us-east-1 event lies in an owed second |
| `HistoryTheorems.OwedExample` | cmd/cloudtrail/event.go:82-89 | A run that stops in its second call and leaves an event of us-east-1 owed |
| `HistoryTheorems.HistorySound` | cmd/cloudtrail/write-events.go:94-280 | After any number of completed runs the cached periods are in normal form and the cached events are, as a set, exactly the trail events of the queried regions in covered seconds |
| `HistoryTheorems.HistoryPrintedIff` | cmd/cloudtrail/write-events.go:94-280 | In any history, an ended first call prints exactly the due events outside lost seconds, unless its answer is empty; an ended second call prints exactly the due events it fetches or an earlier ended second call fetched |
| `HistoryTheorems.OutputIff` | cmd/cloudtrail/write-events.go:257-280 | All that a completed run prints in any history: what is due in the cluster's region outside lost seconds and, unless that is us-east-1, what is due there and was ever fetched for it |
| `HistoryTheorems.CompletedPrintedIff` | cmd/cloudtrail/write-events.go:94-280 | After completed runs only, the second call, too, prints exactly the due events outside lost seconds, unless its answer is empty |
| `HistoryTheorems.HistoryStoppedPrintedIff` | cmd/cloudtrail/write-events.go:138-177 | In any history, exactly what a call that stops has printed, told from the cache the run found |
| `HistoryTheorems.HistoryNewestFirstIff` | cmd/cloudtrail/write-events.go:118-181 | In any history, when the output of an ended first call is newest first, told from the cache the run found |
| `HistoryTheorems.FetchedOnceIff` | cmd/cloudtrail/cache.go:170-175 | A second is fetched more than once if and only if some run fetched it again while it was cached |
| `HistoryTheorems.HistoryExactIff` | cmd/cloudtrail/cache.go:113-131 | After any number of completed runs nothing is stored twice if and only if no run fetched again a cached second that holds an event |
| `HistoryTheorems.HistoryExact` | cmd/cloudtrail/cache.go:113-131 | If no run met a cache of the refetching shape, the cached events are as a multiset exactly the trail events in covered seconds |
| `OperatorDiff.SlicesEqual` | cmd/cluster/diff.go:557-568 | Decides equality of two lists |
| `OperatorDiff.MapByName` | cmd/cluster/diff.go:265-273 | The last operator of each name wins |
| `OperatorDiff.ByNameKeys` | cmd/cluster/diff.go:265-273 | The map has exactly the names of the list, each with an operator of the list that bears it |
| `OperatorDiff.ByNameLast` | cmd/cluster/diff.go:265-273 | Of several operators with one name the map holds the last |
| `OperatorDiff.DiffHolds` | cmd/cluster/diff.go:262-346 | The diff holds an entry once if it belongs there and not at all otherwise: added or removed with the status of the one snapshot that has the name, modified where both have it and the field differs, with the old value before and the new one after |
| `OperatorDiff.FieldsInOrder` | cmd/cluster/diff.go:283-331 | The entries of one operator come in the order available, degraded, progressing, version, conditions |
| `OperatorDiff.StatusTells` | cmd/cluster/diff.go:348-351 | Two operators have the same status text if and only if their three flags and versions agree |
| `OperatorDiff.StatusExample` | cmd/cluster/diff.go:348-351 | The status text for two settings of the flags and any version |
| `OperatorDiff.JoinLast` | cmd/cluster/diff.go:324-330 | Conditions are joined by a comma and a space |
| `OperatorDiff.ConditionsAlikeExample` | cmd/cluster/diff.go:324-330 | Conditions that differ and are shown with the same text before and after |
| `OperatorDiff.CompareFields` | cmd/cluster/diff.go:283-331 | Computes `FieldDiffs`: one entry per differing field, in the order of comparison (`DiffHolds` says which) |
| `OperatorDiff.CompareAfter` | cmd/cluster/diff.go:275-332 | The first loop, in any map order, yields for each name of the new snapshot exactly its differences |
| `OperatorDiff.CompareBefore` | cmd/cluster/diff.go:334-343 | The second loop completes the diff with the removed operators |
| `OperatorDiff.CompareOperators` | cmd/cluster/diff.go:262-346 | In any order of the maps, the diff holds exactly the entries that belong in it, once each, and for every name in the order of the fields |
| `OperatorDiff.EmptyDiffIff` | cmd/cluster/diff.go:262-346 | The diff is empty if and only if both snapshots hold the same operators with the same fields |
| `OperatorDiff.CountChanged` | cmd/cluster/diff.go:166-171 | Counts the distinct names in the diff |
| `OperatorDiff.CountChangedMeans` | cmd/cluster/diff.go:166-171 | Those names are exactly the operators that differ or that one side alone holds |
| `OperatorDiff.AddedMinusRemoved` | cmd/cluster/diff.go:275-343 | Added and removed entries are one per name only the new or only the old snapshot holds; their difference is the change in distinct names |
| `OperatorDiff.SwappedDiff` | cmd/cluster/diff.go:262-346 | Swapping the snapshots yields the same entries with added and removed, before and after exchanged |
| `WorkerPools.MergePatchFromStored` | cmd/cluster/imdsv2.go:459-492 | A merge patch computed from the object just read installs the desired object |
| `WorkerPools.PatchPool` | cmd/cluster/imdsv2.go:453-497 | The two patches of one pool: every way to fail, and the phase in which each leaves it (`PoolKept` says what every phase keeps) |
| `WorkerPools.SelectWorkers` | cmd/cluster/imdsv2.go:392-425 | Picks each pool that is not master or infra and does not require IMDSv2, once |
| `WorkerPools.MigrateWorkers` | cmd/cluster/imdsv2.go:370-510 | A run completes some pools of its selection in order, stops in one phase of the next if a request fails, and touches nothing else; if no request fails it reports no error |
| `WorkerPools.AtMostOneMore` | cmd/cluster/imdsv2.go:449-498 | However a run ends, at most one more pool carries the annotation, and none unless it failed after sending a first patch |
| `WorkerPools.PoolKept` | cmd/cluster/imdsv2.go:460-490 | However a run ends, no pool appears or goes, and each keeps its name, its instance type, every annotation but the override, and its platform unless that now has the authentication "Required"; an override it did not have has the value "true" |
| `WorkerPools.NothingPatched` | cmd/cluster/imdsv2.go:427-446 | A run that reports no error and no patch changed nothing, and if confirmed it found no pool to pick |
| `WorkerPools.SomethingPatched` | cmd/cluster/imdsv2.go:448-509 | One that reports a patch was confirmed and changed some pool it picked |
| `WorkerPools.ErrorMeans` | cmd/cluster/imdsv2.go:453-496 | An error names a pool that was to be picked and tells how far it got; every other pool is as it was or completed |
| `WorkerPools.RefetchFailureLeaks` | cmd/cluster/imdsv2.go:483-487 | A failed re-fetch always leaves the pool patched and annotated |
| `WorkerPools.SuccessCompletes` | cmd/cluster/imdsv2.go:394-509 | After a confirmed successful run every pool but master and infra requires IMDSv2 and the patched ones carry no annotation |
| `WorkerPools.OthersUntouched` | cmd/cluster/imdsv2.go:397-407 | No run, however it ends, changes master, infra or already configured pools |
| `WorkerPools.LeaksAtMostFailures` | cmd/cluster/imdsv2.go:370-510 | Over any sequence of runs the annotated pools grow by at most the number of runs that failed after sending a first patch |
| `WorkerPools.NeverPickedAgain` | cmd/cluster/imdsv2.go:394-425 | A pool that needs no update stays exactly as it is through any sequence of runs |
| `WorkerPools.LeakIsPermanent` | cmd/cluster/imdsv2.go:394-494 | The annotation left by a failed re-fetch survives every later run |
| `PoolCounts.LegalEntityMap.HandlePoolCounting` | cmd/aao/pool.go:104-129 | Adds the account to the claimed or unused count of its entry, creating the entry if needed |
| `PoolCounts.CountAccounts` | cmd/aao/pool.go:69-89 | The counting loop: the number of unclaimed, ready accounts without a legal entity that are not BYOC, and `Entries` of both pools |
| `PoolCounts.PrepareLESMapToArray` | cmd/aao/pool.go:131-139 | Lists every entry once, with its total, in whatever order the map yields |
| `PoolCounts.GetSortedCount` | cmd/aao/pool.go:141-153 | The first `maxLen` entries of some descending sort of the listing |
| `PoolCounts.Run` | cmd/aao/pool.go:60-102 | That number and two tables: the second counts the accounts with a legal entity that are not BYOC and in "fm-accountpool", the first those in any other pool; each, with the rows cut off, counts all of them once, claimed and unused apart, and keeps the ten largest rows |
| `PoolCounts.TableMeans` | cmd/aao/pool.go:69-102 | The same of any table of either pool, row by row: a row holds the accounts of its id and name in the right columns, and their sum |
| `PoolCounts.EntryMeans` | cmd/aao/pool.go:104-129 | There is an entry for exactly the keys of the accounts, with the numbers of claimed and unclaimed accounts of that key, named after the first of them |
| `PoolCounts.PoolConserved` | cmd/aao/pool.go:104-153 | Kept and cut-off entries of one pool together count each account of the pool once, in the right column |
| `PoolCounts.CountsConserved` | cmd/aao/pool.go:74-89 | Over both pools the columns add up to the claimed and unclaimed non-BYOC accounts with a legal entity; the available accounts are none of these |
| `PoolCounts.LargestKept` | cmd/aao/pool.go:141-153 | The kept entries are in descending order and no total that was cut off exceeds one that was kept |
| `PoolCounts.PrintedTotalIff` | cmd/aao/pool.go:155-173 | The printed totals cover the pool if and only if it has at most `maxLen` entries |
| `PoolCounts.SharedKeyIff` | cmd/aao/pool.go:105 | Exactly when accounts of two legal entities are counted in one entry |
| `PoolCounts.SharedEntryExample` | cmd/aao/pool.go:105-114 | Two different legal entities counted in one entry |

## Left out

- Event times are whole seconds and theorems about the cache take valid whole-second requests; the methods and
  `DiffMultiple`'s function take any. `Granularity` and `InvertedRequest` show what the other requests do.
- SkippedInstants: told from cache and request for requests that touch one cached period; for those that touch several,
  `ClaimedByGaps` tells it from what was recorded.
- Computing the request from flags and the wall clock (`ParseStartEndTime`), and all parsing of dates and durations.
- Theorems that compare with the trail assume that answers without a failing page are complete over a fixed trail, and that
  its events carry a time, readable details, and the queried region in them. The methods assume none of this.
- `ExtractUserDetails` is not modelled: an event carries the outcome, the region and the issuer's user name, or nothing.
- The cache file is state that reads back what was saved; JSON, directories and I/O errors are not modelled. Nor are two
  processes on one file, or `Save` on a nil cache.
- Slices are values held in fields and variables: sorting in place, the copying of slices and `Merge`'s pointer to the
  last element are modelled by reassignment, so aliasing between slices is not captured.
- Printing appends events to a sequence; tables, links, raw output and log messages are not modelled.
- `IsIgnoredEvent` and the permission-denied and errors commands of cmd/cloudtrail, which do not use the cache.
- Filters that validation rejects: `parseFilters` would panic on them, and `preRun` rejects them before they reach it.
- The AWS paginator: the outcome of each page is given, and a page that fails comes with no output. While the process goes
  down its goroutines may run a little longer; here nothing happens after the failing page.
- Errors of getPages itself, on reading or writing the cache file, which end a run like a failing page.
- The order of the diff entries of different operators, which Go's map order leaves open.
- Nodes, namespaces and resources of a snapshot: the same map comparison with fewer fields or with rendered values.
- Hive requests either succeed, are refused without effect, or take effect with the reply lost; other writers of a
  MachinePool, resource versions and the replica and instance-type texts shown to the user are not modelled.
- The infra MachinePool dance and the control plane of cmd/cluster/imdsv2.go: pkg/infra is not part of this model.
- The listing of accounts through the Kubernetes client and the printing of the tables of cmd/aao/pool.go.
