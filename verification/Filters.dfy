/**
 cmd/cloudtrail/filter.go: inclusion and exclusion filters given as "key=value" strings.

 `Wanted` is the meaning the command line promises; the loops go through a map from each key to its
 values, in whatever order the map yields its keys.
 */
module Filters {
  import opened Wrappers
  import opened Events
  import opened Selection

  datatype WriteEventFilters = WriteEventFilters(include_: seq<string>, exclude: seq<string>) {
    /** What preRun checks before anything is looked up. */
    predicate Valid() {
      ValidFilters(include_) && ValidFilters(exclude)
    }
  }

  // ----- Filter strings -----

  /** The position of the first '=', or the length of the string. */
  function Separator(s: string): (i: nat)
    ensures i <= |s|
    ensures i < |s| ==> s[i] == '='
  {
    if s == [] then 0 else if s[0] == '=' then 0 else 1 + Separator(s[1..])
  }

  /** No '=' comes before it. */
  lemma {:induction false} SeparatorIsFirst(s: string, j: nat)
    requires j < Separator(s)
    ensures s[j] != '='
  {
    if j > 0 {
      SeparatorIsFirst(s[1..], j - 1);
    }
  }

  predicate HasSeparator(filter: string) {
    Separator(filter) < |filter|
  }

  function KeyOf(filter: string): string {
    filter[..Separator(filter)]
  }

  /** The value after the first '='; every filter that passes validation has one. */
  function ValueOf(filter: string): string {
    if HasSeparator(filter) then filter[Separator(filter) + 1..] else ""
  }

  /** A filter with a '=' is its key, a '=' and its value, and the key is the part before the first '='. */
  lemma FilterParts(filter: string)
    requires HasSeparator(filter)
    ensures filter == KeyOf(filter) + "=" + ValueOf(filter) && '=' !in KeyOf(filter)
  {
    forall j | 0 <= j < |KeyOf(filter)| ensures KeyOf(filter)[j] != '=' {
      SeparatorIsFirst(filter, j);
    }
  }

  lemma {:induction false} SeparatorAfter(key: string, value: string)
    requires '=' !in key
    ensures Separator(key + "=" + value) == |key|
  {
    if key != [] {
      SeparatorAfter(key[1..], value);
      assert (key + "=" + value)[1..] == key[1..] + "=" + value;
    }
  }

  /** A key without '=' and any value are found again in the filter made of them. */
  lemma PartsFound(key: string, value: string)
    requires '=' !in key
    ensures var filter := key + "=" + value;
      HasSeparator(filter) && KeyOf(filter) == key && ValueOf(filter) == value
  {
    SeparatorAfter(key, value);
  }

  predicate AllowedKey(key: string) {
    key == "username" || key == "event" || key == "resource-name" || key == "resource-type" || key == "arn"
  }

  predicate ValidFilters(filters: seq<string>) {
    forall i | 0 <= i < |filters| :: HasSeparator(filters[i]) && AllowedKey(KeyOf(filters[i]))
  }

  /** The keys that `--include` and `--exclude` take. */
  const KEYS: seq<string> := ["username", "event", "resource-name", "resource-type", "arn"]

  ghost predicate WellFormed(filter: string) {
    exists k, v :: k in KEYS && filter == k + "=" + v
  }

  /** A list passes validation if and only if each of its filters is one of the five keys, a '=' and some value. */
  lemma ValidFiltersIff(filters: seq<string>)
    ensures ValidFilters(filters) <==> forall i | 0 <= i < |filters| :: WellFormed(filters[i])
  {
    forall i | 0 <= i < |filters|
      ensures WellFormed(filters[i]) <==> HasSeparator(filters[i]) && AllowedKey(KeyOf(filters[i]))
    {
      WellFormedIff(filters[i]);
    }
  }

  lemma WellFormedIff(filter: string)
    ensures WellFormed(filter) <==> HasSeparator(filter) && AllowedKey(KeyOf(filter))
  {
    if HasSeparator(filter) && AllowedKey(KeyOf(filter)) {
      FilterParts(filter);
      assert KeyOf(filter) in KEYS;
    }
    if WellFormed(filter) {
      var k, v :| k in KEYS && filter == k + "=" + v;
      PartsFound(k, v);
    }
  }

  datatype FilterError = InvalidFormat(filter: string) | InvalidKey(key: string)

  method ValidateFilters(filters: seq<string>) returns (r: Result<(), FilterError>)
    ensures r.Ok? <==> ValidFilters(filters)
    ensures r.Err? ==> exists i | 0 <= i < |filters| ::
      && ValidFilters(filters[..i])
      && r.error == if HasSeparator(filters[i]) then InvalidKey(KeyOf(filters[i])) else InvalidFormat(filters[i])
  {
    for i := 0 to |filters|
      invariant ValidFilters(filters[..i])
    {
      assert filters[..i + 1] == filters[..i] + [filters[i]];
      if !HasSeparator(filters[i]) {
        return Err(InvalidFormat(filters[i]));
      }
      if !AllowedKey(KeyOf(filters[i])) {
        return Err(InvalidKey(KeyOf(filters[i])));
      }
    }
    assert filters[..|filters|] == filters;
    return Ok(());
  }

  /** The keys given, each with its values in order. */
  function Parsed(filters: seq<string>): map<string, seq<string>> {
    if filters == [] then map[]
    else
      var front := Parsed(filters[..|filters| - 1]);
      var last := filters[|filters| - 1];
      front[KeyOf(last) := (if KeyOf(last) in front then front[KeyOf(last)] else []) + [ValueOf(last)]]
  }

  method ParseFilters(filters: seq<string>) returns (keyValuePair: map<string, seq<string>>)
    requires forall i | 0 <= i < |filters| :: HasSeparator(filters[i])
    ensures keyValuePair == Parsed(filters)
  {
    keyValuePair := map[];
    for i := 0 to |filters|
      invariant keyValuePair == Parsed(filters[..i])
    {
      assert filters[..i + 1][..i] == filters[..i];
      var key, value := KeyOf(filters[i]), ValueOf(filters[i]);
      var values := if key in keyValuePair then keyValuePair[key] else [];
      keyValuePair := keyValuePair[key := values + [value]];
    }
    assert filters[..|filters|] == filters;
  }

  /** The values given for a key are those of its filters, in the order of the list. */
  lemma {:induction false} ParsedInOrder(filters: seq<string>, key: string)
    ensures ValuesOf(Select(filters, (x: string) => KeyOf(x) == key)) == if key in Parsed(filters) then Parsed(filters)[key] else []
  {
    if filters != [] {
      var front, last := filters[..|filters| - 1], filters[|filters| - 1];
      ParsedInOrder(front, key);
      if KeyOf(last) == key {
        var kept := Select(front, (x: string) => KeyOf(x) == key);
        assert (kept + [last])[..|kept|] == kept;
      }
    }
  }

  function ValuesOf(filters: seq<string>): seq<string> {
    if filters == [] then [] else ValuesOf(filters[..|filters| - 1]) + [ValueOf(filters[|filters| - 1])]
  }

  // ----- Matching one event -----

  /** The match closures of `filterFunc`, one per key. */
  predicate KeyMatches(key: string, e: Event, values: seq<string>) {
    if key == "username" then e.username.Some? && e.username.value in values
    else if key == "event" then e.eventName.Some? && e.eventName.value in values
    else if key == "resource-name" then
      exists i | 0 <= i < |e.resources| :: e.resources[i].name.Some? && e.resources[i].name.value in values
    else if key == "resource-type" then
      exists i | 0 <= i < |e.resources| :: e.resources[i].kind.Some? && e.resources[i].kind.value in values
    else
      key == "arn" && e.details.Some? && e.details.value.issuerUserName in values
  }

  predicate PassesAll(kv: map<string, seq<string>>, e: Event) {
    forall key | key in kv && AllowedKey(key) :: KeyMatches(key, e, kv[key])
  }

  predicate MatchesAny(kv: map<string, seq<string>>, e: Event) {
    exists key | key in kv && AllowedKey(key) :: KeyMatches(key, e, kv[key])
  }

  predicate Passes(f: WriteEventFilters, e: Event) {
    PassesAll(Parsed(f.include_), e) && !MatchesAny(Parsed(f.exclude), e)
  }

  // ----- The filtering loops -----

  function Included(events: seq<Event>, kv: map<string, seq<string>>): seq<Event> {
    Select(events, e => PassesAll(kv, e))
  }

  function Excluded(events: seq<Event>, kv: map<string, seq<string>>): seq<Event> {
    Select(events, e => !MatchesAny(kv, e))
  }

  method InclusionFilter(rawData: seq<Event>, inclusionFilters: seq<string>) returns (result: seq<Event>)
    requires ValidFilters(inclusionFilters)
    ensures result == Included(rawData, Parsed(inclusionFilters))
  {
    var keyValuePair := ParseFilters(inclusionFilters);
    result := [];
    for i := 0 to |rawData|
      invariant result == Included(rawData[..i], keyValuePair)
    {
      SelectNext(rawData, (e: Event) => PassesAll(keyValuePair, e), i);
      var data, found := rawData[i], true;
      var keys := keyValuePair.Keys;
      while keys != {}
        invariant keys <= keyValuePair.Keys
        invariant found
        invariant forall key | key in keyValuePair && key !in keys && AllowedKey(key) :: KeyMatches(key, data, keyValuePair[key])
        decreases keys
      {
        var key :| key in keys;
        if AllowedKey(key) && !KeyMatches(key, data, keyValuePair[key]) {
          found := false;
          break;
        }
        keys := keys - {key};
      }
      if found {
        result := result + [data];
      }
    }
    assert rawData[..|rawData|] == rawData;
  }

  method ExclusionFilter(rawData: seq<Event>, exclusionFilters: seq<string>) returns (result: seq<Event>)
    requires ValidFilters(exclusionFilters)
    ensures result == Excluded(rawData, Parsed(exclusionFilters))
  {
    var keyValuePair := ParseFilters(exclusionFilters);
    result := [];
    for i := 0 to |rawData|
      invariant result == Excluded(rawData[..i], keyValuePair)
    {
      SelectNext(rawData, (e: Event) => !MatchesAny(keyValuePair, e), i);
      var data, found := rawData[i], false;
      var keys := keyValuePair.Keys;
      while keys != {}
        invariant keys <= keyValuePair.Keys
        invariant !found
        invariant forall key | key in keyValuePair && key !in keys && AllowedKey(key) :: !KeyMatches(key, data, keyValuePair[key])
        decreases keys
      {
        var key :| key in keys;
        if AllowedKey(key) && KeyMatches(key, data, keyValuePair[key]) {
          found := true;
          break;
        }
        keys := keys - {key};
      }
      if !found {
        result := result + [data];
      }
    }
    assert rawData[..|rawData|] == rawData;
  }

  function Filtered(f: WriteEventFilters, events: seq<Event>): seq<Event> {
    Select(events, e => Passes(f, e))
  }

  /** `Filters`: inclusion, then exclusion, each only where filters are given. */
  method ApplyWriteFilters(f: WriteEventFilters, allLookupEvents: seq<Event>) returns (filtered: seq<Event>)
    requires f.Valid()
    ensures filtered == Filtered(f, allLookupEvents)
  {
    filtered := allLookupEvents;
    IncludedExcluded(f, allLookupEvents);
    NoFilters(filtered);
    if |f.include_| > 0 {
      filtered := InclusionFilter(filtered, f.include_);
    }
    NoFilters(filtered);
    if |f.exclude| > 0 {
      filtered := ExclusionFilter(filtered, f.exclude);
    }
  }

  lemma {:induction false} NoFilters(events: seq<Event>)
    ensures Included(events, Parsed([])) == events == Excluded(events, Parsed([]))
  {
    if events != [] {
      NoFilters(events[..|events| - 1]);
    }
  }

  /** Inclusion and exclusion commute, and together keep what passes both. */
  lemma IncludedExcluded(f: WriteEventFilters, events: seq<Event>)
    ensures var inc, exc := Parsed(f.include_), Parsed(f.exclude);
      && Excluded(Included(events, inc), exc) == Filtered(f, events)
      && Included(Excluded(events, exc), inc) == Filtered(f, events)
  {
    var inc, exc := Parsed(f.include_), Parsed(f.exclude);
    SelectTwice(events, e => PassesAll(inc, e), e => !MatchesAny(exc, e), e => Passes(f, e));
    SelectTwice(events, e => !MatchesAny(exc, e), e => PassesAll(inc, e), e => Passes(f, e));
  }

  // ----- What the filters mean -----

  /** The event carries this value under this key. */
  ghost predicate HasValue(e: Event, key: string, value: string) {
    match key
    case "username" => e.username == Some(value)
    case "event" => e.eventName == Some(value)
    case "resource-name" => exists i | 0 <= i < |e.resources| :: e.resources[i].name == Some(value)
    case "resource-type" => exists i | 0 <= i < |e.resources| :: e.resources[i].kind == Some(value)
    case "arn" => e.details.Some? && e.details.value.issuerUserName == value
    case _ => false
  }

  ghost predicate Satisfies(e: Event, filter: string) {
    HasValue(e, KeyOf(filter), ValueOf(filter))
  }

  ghost predicate KeyGiven(filters: seq<string>, key: string) {
    exists i | 0 <= i < |filters| :: KeyOf(filters[i]) == key
  }

  /** One of the filters with this key is satisfied. */
  ghost predicate KeySatisfied(filters: seq<string>, key: string, e: Event) {
    exists j | 0 <= j < |filters| :: KeyOf(filters[j]) == key && Satisfies(e, filters[j])
  }

  /** Some value of every included key, and no value of any excluded key. */
  ghost predicate Wanted(f: WriteEventFilters, e: Event) {
    && (forall key | KeyGiven(f.include_, key) :: KeySatisfied(f.include_, key, e))
    && (forall i | 0 <= i < |f.exclude| :: !Satisfies(e, f.exclude[i]))
  }

  lemma {:induction false} ParsedMeaning(filters: seq<string>, key: string, value: string)
    requires forall i | 0 <= i < |filters| :: HasSeparator(filters[i])
    ensures key in Parsed(filters) <==> KeyGiven(filters, key)
    ensures key in Parsed(filters) ==>
      (value in Parsed(filters)[key] <==> exists i | 0 <= i < |filters| :: KeyOf(filters[i]) == key && ValueOf(filters[i]) == value)
  {
    if filters != [] {
      var front := filters[..|filters| - 1];
      ParsedMeaning(front, key, value);
      assert forall i | 0 <= i < |front| :: filters[i] == front[i];
    }
  }

  lemma MatchMeaning(key: string, e: Event, values: seq<string>)
    requires AllowedKey(key)
    ensures KeyMatches(key, e, values) <==> exists v | v in values :: HasValue(e, key, v)
  {
    if KeyMatches(key, e, values) {
      if key == "username" {
        assert HasValue(e, key, e.username.value);
      } else if key == "event" {
        assert HasValue(e, key, e.eventName.value);
      } else if key == "resource-name" {
        var i :| 0 <= i < |e.resources| && e.resources[i].name.Some? && e.resources[i].name.value in values;
        assert HasValue(e, key, e.resources[i].name.value);
      } else if key == "resource-type" {
        var i :| 0 <= i < |e.resources| && e.resources[i].kind.Some? && e.resources[i].kind.value in values;
        assert HasValue(e, key, e.resources[i].kind.value);
      } else {
        assert HasValue(e, key, e.details.value.issuerUserName);
      }
    }
  }

  /** A key of a parsed list matches an event exactly when one of the list's filters with that key does. */
  lemma {:induction false} ParsedMatches(filters: seq<string>, key: string, e: Event)
    requires ValidFilters(filters) && key in Parsed(filters) && AllowedKey(key)
    ensures KeyMatches(key, e, Parsed(filters)[key]) <==> KeySatisfied(filters, key, e)
  {
    var values := Parsed(filters)[key];
    MatchMeaning(key, e, values);
    if KeyMatches(key, e, values) {
      var v :| v in values && HasValue(e, key, v);
      ParsedMeaning(filters, key, v);
    }
    if KeySatisfied(filters, key, e) {
      var j :| 0 <= j < |filters| && KeyOf(filters[j]) == key && Satisfies(e, filters[j]);
      ParsedMeaning(filters, key, ValueOf(filters[j]));
    }
  }

  /** What each of the five keys asks of an event, for any value, also one that contains a '='. */
  lemma SatisfiesMeans(e: Event, v: string)
    ensures Satisfies(e, "username" + "=" + v) <==> e.username == Some(v)
    ensures Satisfies(e, "event" + "=" + v) <==> e.eventName == Some(v)
    ensures Satisfies(e, "resource-name" + "=" + v) <==> exists i | 0 <= i < |e.resources| :: e.resources[i].name == Some(v)
    ensures Satisfies(e, "resource-type" + "=" + v) <==> exists i | 0 <= i < |e.resources| :: e.resources[i].kind == Some(v)
    ensures Satisfies(e, "arn" + "=" + v) <==> e.details.Some? && e.details.value.issuerUserName == v
  {
    PartsFound("username", v);
    PartsFound("event", v);
    PartsFound("resource-name", v);
    PartsFound("resource-type", v);
    PartsFound("arn", v);
  }

  lemma PassesIffWanted(f: WriteEventFilters, e: Event)
    requires f.Valid()
    ensures Passes(f, e) <==> Wanted(f, e)
  {
    IncludedMeaning(f.include_, e);
    ExcludedMeaning(f.exclude, e);
  }

  lemma {:induction false} IncludedMeaning(inc: seq<string>, e: Event)
    requires ValidFilters(inc)
    ensures PassesAll(Parsed(inc), e) <==> forall key | KeyGiven(inc, key) :: KeySatisfied(inc, key, e)
  {
    forall key ensures key in Parsed(inc) <==> KeyGiven(inc, key)
      ensures KeyGiven(inc, key) ==> AllowedKey(key)
      ensures key in Parsed(inc) ==> (KeyMatches(key, e, Parsed(inc)[key]) <==> KeySatisfied(inc, key, e))
    {
      ParsedMeaning(inc, key, "");
      if KeyGiven(inc, key) {
        ParsedMatches(inc, key, e);
      }
    }
  }

  lemma {:induction false} ExcludedMeaning(exc: seq<string>, e: Event)
    requires ValidFilters(exc)
    ensures MatchesAny(Parsed(exc), e) <==> exists i | 0 <= i < |exc| :: Satisfies(e, exc[i])
  {
    if MatchesAny(Parsed(exc), e) {
      var key :| key in Parsed(exc) && AllowedKey(key) && KeyMatches(key, e, Parsed(exc)[key]);
      ParsedMatches(exc, key, e);
    }
    if exists i | 0 <= i < |exc| :: Satisfies(e, exc[i]) {
      var i :| 0 <= i < |exc| && Satisfies(e, exc[i]);
      ParsedMeaning(exc, KeyOf(exc[i]), "");
      ParsedMatches(exc, KeyOf(exc[i]), e);
    }
  }

  /** How often an event comes out of the filters: as often as it goes in if it is wanted, and never otherwise. */
  lemma {:induction false} FilteredCount(f: WriteEventFilters, events: seq<Event>, e: Event)
    requires f.Valid()
    ensures Count(Filtered(f, events), e) == if Wanted(f, e) then Count(events, e) else 0
  {
    SelectCount(events, x => Passes(f, x), e);
    PassesIffWanted(f, e);
  }

  /** Filtering distributes over concatenation, so filtering segment by segment loses nothing. */
  lemma FilteredConcat(f: WriteEventFilters, a: seq<Event>, b: seq<Event>)
    ensures Filtered(f, a + b) == Filtered(f, a) + Filtered(f, b)
  {
    SelectConcat(a, b, e => Passes(f, e));
  }

  // ----- ApplyFilters -----

  type Filter = Event -> Result<bool, string>

  /** What a chain of filters says about one record: the first answer that is not "keep". */
  function Verdict(filters: seq<Filter>, e: Event): Result<bool, string> {
    if filters == [] then Ok(true)
    else
      var first := filters[0](e);
      if first == Ok(true) then Verdict(filters[1..], e) else first
  }

  /** Keep if every filter says so; otherwise what the first says that does not, later filters not being asked. */
  lemma {:induction false} VerdictMeans(filters: seq<Filter>, e: Event)
    ensures Verdict(filters, e) == Ok(true) <==> forall i | 0 <= i < |filters| :: filters[i](e) == Ok(true)
    ensures Verdict(filters, e) != Ok(true) ==> exists i | 0 <= i < |filters| ::
      && (forall j | 0 <= j < i :: filters[j](e) == Ok(true))
      && filters[i](e) != Ok(true) && Verdict(filters, e) == filters[i](e)
  {
    if filters != [] && filters[0](e) == Ok(true) {
      var rest := filters[1..];
      VerdictMeans(rest, e);
      assert forall i | 0 < i < |filters| :: filters[i] == rest[i - 1];
      assert forall i | 0 <= i < |rest| :: rest[i] == filters[i + 1];
      if Verdict(rest, e) != Ok(true) {
        var i :| 0 <= i < |rest| && (forall j | 0 <= j < i :: rest[j](e) == Ok(true))
          && rest[i](e) != Ok(true) && Verdict(rest, e) == rest[i](e);
        assert filters[i + 1](e) != Ok(true) && Verdict(filters, e) == filters[i + 1](e);
      }
    }
  }

  /** Keeps the records every filter accepts, or fails as soon as a filter fails on a record that reached it. */
  method ApplyFilters(records: seq<Event>, filters: seq<Filter>) returns (r: Result<seq<Event>, string>)
    ensures r.Ok? <==> forall i | 0 <= i < |records| :: Verdict(filters, records[i]).Ok?
    ensures r.Ok? ==> r.value == Select(records, e => Verdict(filters, e) == Ok(true))
    ensures r.Err? ==> exists i | 0 <= i < |records| ::
      && (forall j | 0 <= j < i :: Verdict(filters, records[j]).Ok?)
      && Verdict(filters, records[i]) == Err(r.error)
  {
    if |filters| == 0 {
      AllKept(records, filters);
      return Ok(records);
    }
    var filteredRecords := [];
    ghost var kept := (e: Event) => Verdict(filters, e) == Ok(true);
    for i := 0 to |records|
      invariant filteredRecords == Select(records[..i], kept)
      invariant forall j | 0 <= j < i :: Verdict(filters, records[j]).Ok?
    {
      SelectNext(records, kept, i);
      var keep := true;
      for k := 0 to |filters|
        invariant keep
        invariant Verdict(filters, records[i]) == Verdict(filters[k..], records[i])
      {
        var filtered := filters[k](records[i]);
        if filtered.Err? {
          return Err(filtered.error);
        }
        if !filtered.value {
          keep := false;
          break;
        }
      }
      if keep {
        filteredRecords := filteredRecords + [records[i]];
      }
    }
    assert records[..|records|] == records;
    SelectAgree(records, kept, e => Verdict(filters, e) == Ok(true));
    return Ok(filteredRecords);
  }

  lemma {:induction false} AllKept(records: seq<Event>, filters: seq<Filter>)
    requires filters == []
    ensures Select(records, e => Verdict(filters, e) == Ok(true)) == records
  {
    if records != [] {
      AllKept(records[..|records| - 1], filters);
    }
  }
}
