/**
 CloudTrail events and the pages in which the lookup API delivers them (cmd/cloudtrail/event.go).

 `details` is what `ExtractUserDetails` makes of the event's raw JSON: None where it returns an error.
 */
module Events {
  import opened Wrappers
  import opened Periods
  import opened Selection
  import opened Sorting

  datatype Resource = Resource(name: Option<string>, kind: Option<string>)

  datatype Details = Details(eventRegion: string, issuerUserName: string)

  datatype Event = Event(
    eventId: Option<string>,
    time: Option<int>,
    username: Option<string>,
    eventName: Option<string>,
    resources: seq<Resource>,
    details: Option<Details>
  ) {
    predicate During(p: Period) {
      time.Some? && p.Contains(time.value)
    }

    predicate DuringAny(ps: seq<Period>) {
      time.Some? && Covered(ps, time.value)
    }

    predicate AtOrAfter(t: int) {
      time.Some? && time.value >= t
    }

    predicate AtOrBefore(t: int) {
      time.Some? && time.value <= t
    }

    predicate FromRegion(region: string) {
      details.Some? && details.value.eventRegion == region
    }
  }

  /** What asking for one page yields: its events, or the error with which fetching it failed. */
  datatype EventResult = Page(events: seq<Event>) | PageError(reason: string)

  predicate Fails(pages: seq<EventResult>) {
    exists i | 0 <= i < |pages| :: pages[i].PageError?
  }

  /** The order in which Save stores events: newest first, events without a time last. */
  predicate StoredBefore(a: Event, b: Event) {
    a.time.Some? && (b.time.None? || b.time.value < a.time.value)
  }

  ghost predicate NewestFirst(events: seq<Event>) {
    InOrder(events, StoredBefore)
  }

  /** The events of the pages that arrived, in order; failed pages are skipped. */
  function FetchedEvents(pages: seq<EventResult>): seq<Event> {
    if pages == [] then []
    else
      var front := FetchedEvents(pages[..|pages| - 1]);
      if pages[|pages| - 1].Page? then front + pages[|pages| - 1].events else front
  }

  /** No page is dropped: what arrives over several answers is what arrives over each, in order. */
  lemma {:induction false} FetchedConcat(a: seq<EventResult>, b: seq<EventResult>)
    ensures FetchedEvents(a + b) == FetchedEvents(a) + FetchedEvents(b)
  {
    if b == [] {
      assert a + b == a;
    } else {
      var last := |b| - 1;
      FetchedConcat(a, b[..last]);
      assert (a + b)[..|a + b| - 1] == a + b[..last];
    }
  }

  /** A page contributes all of its events, a failed page none. */
  lemma FetchedSingle(es: seq<Event>, reason: string)
    ensures FetchedEvents([]) == []
    ensures FetchedEvents([Page(es)]) == es
    ensures FetchedEvents([PageError(reason)]) == []
  {
    assert [Page(es)][..0] == [] && [PageError(reason)][..0] == [];
    assert [] + es == es;
  }

  /** Newest first, told by the times alone: no event comes after an older one, and none with a time after one without. */
  lemma NewestFirstMeans(events: seq<Event>)
    ensures NewestFirst(events) <==>
      forall i, j | 0 <= i < j < |events| && events[j].time.Some? ::
        events[i].time.Some? && events[j].time.value <= events[i].time.value
  {
    if NewestFirst(events) {
      forall i, j | 0 <= i < j < |events| && events[j].time.Some?
        ensures events[i].time.Some? && events[j].time.value <= events[i].time.value
      {
        assert PairInOrder(events, StoredBefore, i, j);
      }
    }
  }

  /** A subsequence of a newest-first sequence is newest-first. */
  lemma {:induction false} SelectNewestFirst(events: seq<Event>, keep: Event -> bool)
    requires NewestFirst(events)
    ensures NewestFirst(Select(events, keep))
  {
    if events != [] {
      var front, last := events[..|events| - 1], events[|events| - 1];
      assert InOrder(front, StoredBefore) by {
        forall i, j | 0 <= i < j < |front| ensures PairInOrder(front, StoredBefore, i, j) {
          assert PairInOrder(events, StoredBefore, i, j);
        }
      }
      SelectNewestFirst(front, keep);
      forall e | e in front ensures !StoredBefore(last, e) {
        var i :| 0 <= i < |front| && front[i] == e;
        assert PairInOrder(events, StoredBefore, i, |events| - 1);
      }
      if keep(last) {
        OldestLast(front, keep, last);
      }
    }
  }

  lemma {:induction false} OldestLast(front: seq<Event>, keep: Event -> bool, last: Event)
    requires NewestFirst(Select(front, keep))
    requires forall e | e in front :: !StoredBefore(last, e)
    ensures NewestFirst(Select(front, keep) + [last])
  {
    var kept := Select(front, keep);
    var r := kept + [last];
    forall i, j | 0 <= i < j < |r| ensures PairInOrder(r, StoredBefore, i, j) {
      if j < |kept| {
        assert PairInOrder(kept, StoredBefore, i, j);
      } else {
        SelectCount(front, keep, r[i]);
        CountIsMultiplicity(kept, r[i]);
        CountIsMultiplicity(front, r[i]);
      }
    }
  }
}
