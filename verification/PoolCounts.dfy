/**
 cmd/aao/pool.go: the accounts of the AWS Account Operator counted per legal entity, in two pools, and the cut to the
 largest entities.

 Go yields the entries of a map in any order and its sort is unstable: `keys` below is whatever order came up, and
 nothing is said of entries with equal totals.
 */
module PoolCounts {
  import opened Selection
  import opened Sorting

  const FM_POOL := "fm-accountpool"
  const MAX_LEN: nat := 10

  datatype Account = Account(claimed: bool, state: string, legalId: string, legalName: string, byoc: bool, pool: string) {
    /** Ready to be handed out to any legal entity. */
    predicate Available() {
      !claimed && state == "Ready" && legalId == "" && !byoc
    }

    /** Counted for its legal entity. */
    predicate Counted() {
      legalId != "" && !byoc
    }

    predicate CountedIn(fm: bool) {
      Counted() && (pool == FM_POOL) == fm
    }

    function Key(): string {
      legalId + " " + legalName
    }
  }

  datatype Stats = Stats(name: string, id: string, claimedCount: nat, unusedCount: nat, totalCount: nat)

  // ----- Counting -----

  function AddAccount(m: map<string, Stats>, a: Account): map<string, Stats> {
    var entry := if a.Key() in m then m[a.Key()] else Stats(a.legalName, a.legalId, 0, 0, 0);
    m[a.Key() := if a.claimed then entry.(claimedCount := entry.claimedCount + 1)
                 else entry.(unusedCount := entry.unusedCount + 1)]
  }

  function Entries(accounts: seq<Account>): map<string, Stats> {
    if accounts == [] then map[] else AddAccount(Entries(accounts[..|accounts| - 1]), accounts[|accounts| - 1])
  }

  function InPool(accounts: seq<Account>, fm: bool): seq<Account> {
    Select(accounts, (a: Account) => a.CountedIn(fm))
  }

  function AvailableAccounts(accounts: seq<Account>): seq<Account> {
    Select(accounts, (a: Account) => a.Available())
  }

  /** The number of accounts that are unclaimed, ready, without a legal entity and not BYOC. */
  ghost function ReadyNumber(accounts: seq<Account>): nat {
    |Select(accounts, (a: Account) => !a.claimed && a.state == "Ready" && a.legalId == "" && !a.byoc)|
  }

  lemma ReadyAreAvailable(accounts: seq<Account>)
    ensures |AvailableAccounts(accounts)| == ReadyNumber(accounts)
  {
    SelectAgree(accounts, (a: Account) => a.Available(),
                (a: Account) => !a.claimed && a.state == "Ready" && a.legalId == "" && !a.byoc);
  }

  class LegalEntityMap {
    var entries: map<string, Stats>

    constructor ()
      ensures entries == map[]
    {
      entries := map[];
    }

    method HandlePoolCounting(account: Account)
      modifies this
      ensures entries == AddAccount(old(entries), account)
    {
      var key := account.Key();
      if account.claimed {
        if key in entries {
          var entry := entries[key];
          entries := entries[key := entry.(claimedCount := entry.claimedCount + 1)];
        } else {
          entries := entries[key := Stats(account.legalName, account.legalId, 1, 0, 0)];
        }
      } else {
        if key in entries {
          var entry := entries[key];
          entries := entries[key := entry.(unusedCount := entry.unusedCount + 1)];
        } else {
          entries := entries[key := Stats(account.legalName, account.legalId, 0, 1, 0)];
        }
      }
    }
  }

  lemma EntriesNext(accounts: seq<Account>, i: nat, fm: bool)
    requires i < |accounts|
    ensures Entries(InPool(accounts[..i + 1], fm)) ==
      if accounts[i].CountedIn(fm) then AddAccount(Entries(InPool(accounts[..i], fm)), accounts[i])
      else Entries(InPool(accounts[..i], fm))
  {
    var before := InPool(accounts[..i], fm);
    SelectNext(accounts, (a: Account) => a.CountedIn(fm), i);
    assert before + [] == before;
    assert (before + [accounts[i]])[..|before|] == before;
  }

  /** The counting loop of `run`. */
  method CountAccounts(accounts: seq<Account>)
    returns (availabilityCount: nat, defaultMap: LegalEntityMap, fmMap: LegalEntityMap)
    ensures availabilityCount == ReadyNumber(accounts)
    ensures defaultMap.entries == Entries(InPool(accounts, false))
    ensures fmMap.entries == Entries(InPool(accounts, true))
  {
    defaultMap := new LegalEntityMap();
    fmMap := new LegalEntityMap();
    availabilityCount := 0;
    for i := 0 to |accounts|
      invariant fresh(defaultMap) && fresh(fmMap) && defaultMap != fmMap
      invariant availabilityCount == |AvailableAccounts(accounts[..i])|
      invariant defaultMap.entries == Entries(InPool(accounts[..i], false))
      invariant fmMap.entries == Entries(InPool(accounts[..i], true))
    {
      var account := accounts[i];
      SelectNext(accounts, (a: Account) => a.Available(), i);
      EntriesNext(accounts, i, false);
      EntriesNext(accounts, i, true);
      if !account.claimed && account.state == "Ready" && account.legalId == "" && !account.byoc {
        availabilityCount := availabilityCount + 1;
      }
      if account.legalId == "" || account.byoc {
        continue;
      }
      if account.pool == FM_POOL {
        fmMap.HandlePoolCounting(account);
      } else {
        defaultMap.HandlePoolCounting(account);
      }
    }
    assert accounts[..|accounts|] == accounts;
    ReadyAreAvailable(accounts);
  }

  // ----- Listing and cutting -----

  /** `sort.Slice` puts larger totals first. */
  predicate MoreTotal(a: Stats, b: Stats) {
    a.totalCount > b.totalCount
  }

  function WithTotal(s: Stats): Stats {
    s.(totalCount := s.claimedCount + s.unusedCount)
  }

  /** The entries of a map, each once, in the order in which its keys came up. */
  ghost predicate Listing(keys: seq<string>, m: map<string, Stats>) {
    && (forall key :: key in keys <==> key in m)
    && Distinct(keys)
  }

  ghost predicate Distinct(keys: seq<string>) {
    forall i, j | 0 <= i < j < |keys| :: keys[i] != keys[j]
  }

  function Listed(m: map<string, Stats>, keys: seq<string>): seq<Stats>
    requires forall i | 0 <= i < |keys| :: keys[i] in m
  {
    if keys == [] then [] else Listed(m, keys[..|keys| - 1]) + [WithTotal(m[keys[|keys| - 1]])]
  }

  ghost predicate ListingOf(result: seq<Stats>, m: map<string, Stats>) {
    exists keys :: Listing(keys, m) && result == Listed(m, keys)
  }

  method PrepareLESMapToArray(input: map<string, Stats>) returns (result: seq<Stats>)
    ensures ListingOf(result, input)
  {
    result := [];
    ghost var keys := [];
    var rest := input.Keys;
    while rest != {}
      invariant rest <= input.Keys
      invariant forall key :: key in keys <==> key in input && key !in rest
      invariant Distinct(keys)
      invariant result == Listed(input, keys)
      decreases rest
    {
      var key :| key in rest;
      assert (keys + [key])[..|keys|] == keys;
      result := result + [WithTotal(input[key])];
      keys := keys + [key];
      rest := rest - {key};
    }
    assert Listing(keys, input);
  }

  /** The first entries of some sort of some listing of the map, and those that were cut off. */
  ghost predicate Cut(top: seq<Stats>, rest: seq<Stats>, keys: seq<string>, m: map<string, Stats>, maxLen: nat) {
    && Listing(keys, m)
    && SortOf(top + rest, Listed(m, keys), MoreTotal)
    && |top| <= maxLen
    && (rest != [] ==> |top| == maxLen)
  }

  ghost predicate TopOf(top: seq<Stats>, m: map<string, Stats>, maxLen: nat) {
    exists rest, keys :: Cut(top, rest, keys, m, maxLen)
  }

  method GetSortedCount(inputMap: map<string, Stats>, maxLen: nat) returns (top: seq<Stats>)
    ensures TopOf(top, inputMap, maxLen)
  {
    var inputCounts := PrepareLESMapToArray(inputMap);
    ghost var keys :| Listing(keys, inputMap) && inputCounts == Listed(inputMap, keys);
    inputCounts := Sort(inputCounts, MoreTotal);
    var limit := |inputCounts|;
    if maxLen > limit {
      top := inputCounts[..limit];
    } else {
      top := inputCounts[..maxLen];
    }
    ghost var rest := inputCounts[|top|..];
    assert top + rest == inputCounts;
    assert Cut(top, rest, keys, inputMap, maxLen);
  }

  /** `run`, once the accounts are listed: the number and the two tables it prints. */
  method Run(accounts: seq<Account>) returns (availabilityCount: nat, top: seq<Stats>, fmTop: seq<Stats>)
    ensures availabilityCount == ReadyNumber(accounts)
    ensures TopOf(top, Entries(InPool(accounts, false)), MAX_LEN)
    ensures TopOf(fmTop, Entries(InPool(accounts, true)), MAX_LEN)
    ensures exists rest :: TableOf(accounts, false, top, rest)
    ensures exists rest :: TableOf(accounts, true, fmTop, rest)
  {
    var defaultMap, fmMap;
    availabilityCount, defaultMap, fmMap := CountAccounts(accounts);
    top := GetSortedCount(defaultMap.entries, MAX_LEN);
    fmTop := GetSortedCount(fmMap.entries, MAX_LEN);
    TableMeans(accounts, false, top);
    TableMeans(accounts, true, fmTop);
  }

  // ----- What an entry holds -----

  function OfKey(accounts: seq<Account>, key: string): seq<Account> {
    Select(accounts, (a: Account) => a.Key() == key)
  }

  function ClaimedAccounts(accounts: seq<Account>, claimed: bool): seq<Account> {
    Select(accounts, (a: Account) => a.claimed == claimed)
  }

  /** An entry exists for exactly the keys of the accounts, counts those of its key, and is named after the first of them. */
  lemma {:induction false} EntryMeans(accounts: seq<Account>, key: string)
    ensures key in Entries(accounts) <==> OfKey(accounts, key) != []
    ensures key in Entries(accounts) ==>
      var s, own := Entries(accounts)[key], OfKey(accounts, key);
      && s == Stats(own[0].legalName, own[0].legalId, |ClaimedAccounts(own, true)|, |ClaimedAccounts(own, false)|, 0)
  {
    if accounts != [] {
      var front, last := accounts[..|accounts| - 1], accounts[|accounts| - 1];
      EntryMeans(front, key);
      if last.Key() == key {
        var own := OfKey(front, key);
        SelectConcat(own, [last], (a: Account) => a.claimed == true);
        SelectConcat(own, [last], (a: Account) => a.claimed == false);
        SelectSingle(last, (a: Account) => a.claimed == true);
        SelectSingle(last, (a: Account) => a.claimed == false);
      }
    }
  }

  // ----- Conservation -----

  function SumClaimed(s: seq<Stats>): nat {
    if s == [] then 0 else SumClaimed(s[..|s| - 1]) + s[|s| - 1].claimedCount
  }

  function SumUnused(s: seq<Stats>): nat {
    if s == [] then 0 else SumUnused(s[..|s| - 1]) + s[|s| - 1].unusedCount
  }

  function SumTotal(s: seq<Stats>): nat {
    if s == [] then 0 else SumTotal(s[..|s| - 1]) + s[|s| - 1].totalCount
  }

  lemma {:induction false} SumConcat(a: seq<Stats>, b: seq<Stats>)
    ensures SumClaimed(a + b) == SumClaimed(a) + SumClaimed(b)
    ensures SumUnused(a + b) == SumUnused(a) + SumUnused(b)
    ensures SumTotal(a + b) == SumTotal(a) + SumTotal(b)
  {
    if b == [] {
      assert a + b == a;
    } else {
      SumConcat(a, b[..|b| - 1]);
      assert (a + b)[..|a + b| - 1] == a + b[..|b| - 1];
    }
  }

  lemma SumSingle(x: Stats)
    ensures SumClaimed([x]) == x.claimedCount && SumUnused([x]) == x.unusedCount && SumTotal([x]) == x.totalCount
  {
    assert [x][..0] == [];
  }

  lemma {:induction false} CountWithout(b: seq<Stats>, i: nat, y: Stats)
    requires i < |b|
    ensures Count(b, y) == Count(b[..i] + b[i + 1..], y) + (if b[i] == y then 1 else 0)
  {
    assert b == b[..i] + [b[i]] + b[i + 1..];
    CountConcat(b[..i] + [b[i]], b[i + 1..], y);
    CountConcat(b[..i], [b[i]], y);
    CountConcat(b[..i], b[i + 1..], y);
    assert [b[i]][..0] == [];
  }

  lemma SumWithout(b: seq<Stats>, i: nat)
    requires i < |b|
    ensures var r := b[..i] + b[i + 1..];
      && SumClaimed(b) == SumClaimed(r) + b[i].claimedCount
      && SumUnused(b) == SumUnused(r) + b[i].unusedCount
      && SumTotal(b) == SumTotal(r) + b[i].totalCount
  {
    assert b == b[..i] + [b[i]] + b[i + 1..];
    SumConcat(b[..i] + [b[i]], b[i + 1..]);
    SumConcat(b[..i], [b[i]]);
    SumConcat(b[..i], b[i + 1..]);
    SumSingle(b[i]);
  }

  lemma {:induction false} SumPermuted(a: seq<Stats>, b: seq<Stats>)
    requires Permutation(a, b)
    ensures SumClaimed(a) == SumClaimed(b) && SumUnused(a) == SumUnused(b) && SumTotal(a) == SumTotal(b) && |a| == |b|
  {
    if a == [] {
      if b != [] {
        PermutationContains(a, b, b[0]);
        assert false;
      }
    } else {
      var n := |a| - 1;
      PermutationContains(a, b, a[n]);
      var i :| 0 <= i < |b| && b[i] == a[n];
      var r := b[..i] + b[i + 1..];
      forall y ensures Count(a[..n], y) == Count(r, y) {
        CountWithout(b, i, y);
      }
      SumPermuted(a[..n], r);
      SumWithout(b, i);
    }
  }

  function KeyedIn(accounts: seq<Account>, keys: seq<string>, claimed: bool): seq<Account> {
    Select(accounts, (a: Account) => a.Key() in keys && a.claimed == claimed)
  }

  /** A further key adds its own accounts. */
  lemma {:induction false} KeyedNext(accounts: seq<Account>, keys: seq<string>, key: string, claimed: bool)
    requires key !in keys
    ensures |KeyedIn(accounts, keys + [key], claimed)| ==
      |KeyedIn(accounts, keys, claimed)| + |ClaimedAccounts(OfKey(accounts, key), claimed)|
  {
    if accounts != [] {
      var front, last := accounts[..|accounts| - 1], accounts[|accounts| - 1];
      KeyedNext(front, keys, key, claimed);
      SelectConcat(OfKey(front, key), [last], (a: Account) => a.claimed == claimed);
      SelectSingle(last, (a: Account) => a.claimed == claimed);
    }
  }

  /** The listed entries add up to the accounts with a listed key. */
  lemma {:induction false} ListedSums(accounts: seq<Account>, keys: seq<string>)
    requires forall i | 0 <= i < |keys| :: keys[i] in Entries(accounts)
    requires Distinct(keys)
    ensures var s := Listed(Entries(accounts), keys);
      && SumClaimed(s) == |KeyedIn(accounts, keys, true)|
      && SumUnused(s) == |KeyedIn(accounts, keys, false)|
      && SumTotal(s) == SumClaimed(s) + SumUnused(s)
  {
    if keys == [] {
      NoneKeyed(accounts, true);
      NoneKeyed(accounts, false);
    } else {
      var front, key := keys[..|keys| - 1], keys[|keys| - 1];
      ListedSums(accounts, front);
      assert front + [key] == keys;
      KeyedNext(accounts, front, key, true);
      KeyedNext(accounts, front, key, false);
      EntryMeans(accounts, key);
    }
  }

  lemma {:induction false} NoneKeyed(accounts: seq<Account>, claimed: bool)
    ensures KeyedIn(accounts, [], claimed) == []
  {
    if accounts != [] {
      NoneKeyed(accounts[..|accounts| - 1], claimed);
    }
  }

  lemma {:induction false} AllKeyed(accounts: seq<Account>, keys: seq<string>, claimed: bool)
    requires Listing(keys, Entries(accounts))
    ensures KeyedIn(accounts, keys, claimed) == ClaimedAccounts(accounts, claimed)
  {
    forall a | a in accounts ensures a.Key() in keys {
      SelectCount(accounts, (x: Account) => x.Key() == a.Key(), a);
      CountIsMultiplicity(accounts, a);
      EntryMeans(accounts, a.Key());
    }
    SelectAgree(accounts, (a: Account) => a.Key() in keys && a.claimed == claimed, (a: Account) => a.claimed == claimed);
  }

  /** One pool: kept and cut-off entries together count every account of the pool once, in the right column. */
  lemma {:induction false} PoolConserved(accounts: seq<Account>, top: seq<Stats>, rest: seq<Stats>, keys: seq<string>,
                                         maxLen: nat)
    requires Cut(top, rest, keys, Entries(accounts), maxLen)
    ensures SumClaimed(top) + SumClaimed(rest) == |ClaimedAccounts(accounts, true)|
    ensures SumUnused(top) + SumUnused(rest) == |ClaimedAccounts(accounts, false)|
    ensures SumTotal(top) + SumTotal(rest) == |accounts|
  {
    SumPermuted(top + rest, Listed(Entries(accounts), keys));
    SumConcat(top, rest);
    ListedSums(accounts, keys);
    AllKeyed(accounts, keys, true);
    AllKeyed(accounts, keys, false);
    ClaimedOrNot(accounts);
  }

  lemma {:induction false} ClaimedOrNot(accounts: seq<Account>)
    ensures |ClaimedAccounts(accounts, true)| + |ClaimedAccounts(accounts, false)| == |accounts|
  {
    if accounts != [] {
      ClaimedOrNot(accounts[..|accounts| - 1]);
    }
  }

  /** The accounts of one claim state that are counted for a legal entity. */
  function CountedAccounts(accounts: seq<Account>, claimed: bool): seq<Account> {
    Select(accounts, (a: Account) => a.legalId != "" && !a.byoc && a.claimed == claimed)
  }

  /** The accounts that appear in no number: BYOC, or without a legal entity and claimed or not ready. */
  function NotReported(accounts: seq<Account>): seq<Account> {
    Select(accounts, (a: Account) => a.byoc || (a.legalId == "" && (a.claimed || a.state != "Ready")))
  }

  lemma {:induction false} SplitByPool(accounts: seq<Account>, claimed: bool)
    ensures |CountedAccounts(accounts, claimed)| ==
      |ClaimedAccounts(InPool(accounts, false), claimed)| + |ClaimedAccounts(InPool(accounts, true), claimed)|
  {
    if accounts != [] {
      var front, last := accounts[..|accounts| - 1], accounts[|accounts| - 1];
      SplitByPool(front, claimed);
      SelectConcat(InPool(front, false), [last], (a: Account) => a.claimed == claimed);
      SelectConcat(InPool(front, true), [last], (a: Account) => a.claimed == claimed);
      SelectSingle(last, (a: Account) => a.claimed == claimed);
    }
  }

  /**
   Over both pools the claimed and unused columns, kept or cut off, add up to the claimed and unclaimed accounts that have
   a legal entity and are not BYOC; the accounts reported available are none of these.
   */
  lemma {:induction false} CountsConserved(accounts: seq<Account>, maxLen: nat, top: seq<Stats>, rest: seq<Stats>,
                                           keys: seq<string>, fmTop: seq<Stats>, fmRest: seq<Stats>,
                                           fmKeys: seq<string>)
    requires Cut(top, rest, keys, Entries(InPool(accounts, false)), maxLen)
    requires Cut(fmTop, fmRest, fmKeys, Entries(InPool(accounts, true)), maxLen)
    ensures SumClaimed(top) + SumClaimed(rest) + SumClaimed(fmTop) + SumClaimed(fmRest) == |CountedAccounts(accounts, true)|
    ensures SumUnused(top) + SumUnused(rest) + SumUnused(fmTop) + SumUnused(fmRest) == |CountedAccounts(accounts, false)|
    ensures |CountedAccounts(accounts, true)| + |CountedAccounts(accounts, false)| + ReadyNumber(accounts)
      + |NotReported(accounts)| == |accounts|
  {
    PoolConserved(InPool(accounts, false), top, rest, keys, maxLen);
    PoolConserved(InPool(accounts, true), fmTop, fmRest, fmKeys, maxLen);
    SplitByPool(accounts, true);
    SplitByPool(accounts, false);
    Partition(accounts);
  }

  lemma {:induction false} Partition(accounts: seq<Account>)
    ensures |CountedAccounts(accounts, true)| + |CountedAccounts(accounts, false)| + ReadyNumber(accounts)
      + |NotReported(accounts)| == |accounts|
  {
    if accounts != [] {
      Partition(accounts[..|accounts| - 1]);
    }
  }

  // ----- The two tables, told from the accounts -----

  /** The table an account is listed in, if in any. */
  ghost predicate ListedUnder(a: Account, fm: bool) {
    a.legalId != "" && !a.byoc && if fm then a.pool == "fm-accountpool" else a.pool != "fm-accountpool"
  }

  /** The number of accounts of a table, claimed or unclaimed. */
  ghost function Number(accounts: seq<Account>, fm: bool, claimed: bool): nat {
    if accounts == [] then 0
    else
      var last := accounts[|accounts| - 1];
      Number(accounts[..|accounts| - 1], fm, claimed) + (if ListedUnder(last, fm) && last.claimed == claimed then 1 else 0)
  }

  /** The number of those whose id and name read like the given ones. */
  ghost function NumberOf(accounts: seq<Account>, fm: bool, claimed: bool, id: string, name: string): nat {
    if accounts == [] then 0
    else
      var last := accounts[|accounts| - 1];
      NumberOf(accounts[..|accounts| - 1], fm, claimed, id, name)
      + (if ListedUnder(last, fm) && last.claimed == claimed && last.legalId + " " + last.legalName == id + " " + name
         then 1 else 0)
  }

  /** A row of a table: the accounts of its id and name in both columns, and at least one of them. */
  ghost predicate RowOf(accounts: seq<Account>, fm: bool, x: Stats) {
    && x.claimedCount == NumberOf(accounts, fm, true, x.id, x.name)
    && x.unusedCount == NumberOf(accounts, fm, false, x.id, x.name)
    && x.totalCount == x.claimedCount + x.unusedCount > 0
  }

  /**
   A printed table and the rows cut off below it: at most ten are kept, none while a larger one is cut off, and together they
   count every account of the table once.
   */
  ghost predicate TableOf(accounts: seq<Account>, fm: bool, top: seq<Stats>, rest: seq<Stats>) {
    && |top| <= 10 && (rest != [] ==> |top| == 10)
    && (forall i, j | 0 <= i < j < |top| :: top[j].totalCount <= top[i].totalCount)
    && (forall i, j | 0 <= i < |top| && 0 <= j < |rest| :: rest[j].totalCount <= top[i].totalCount)
    && (forall x | x in top + rest :: RowOf(accounts, fm, x))
    && SumClaimed(top) + SumClaimed(rest) == Number(accounts, fm, true)
    && SumUnused(top) + SumUnused(rest) == Number(accounts, fm, false)
  }

  lemma {:induction false} NumberInPool(accounts: seq<Account>, fm: bool, claimed: bool)
    ensures Number(accounts, fm, claimed) == |ClaimedAccounts(InPool(accounts, fm), claimed)|
  {
    if accounts != [] {
      var front, last := accounts[..|accounts| - 1], accounts[|accounts| - 1];
      NumberInPool(front, fm, claimed);
      SelectConcat(InPool(front, fm), [last], (a: Account) => a.claimed == claimed);
      SelectSingle(last, (a: Account) => a.claimed == claimed);
    }
  }

  lemma {:induction false} NumberOfKey(accounts: seq<Account>, fm: bool, claimed: bool, id: string, name: string)
    ensures NumberOf(accounts, fm, claimed, id, name) == |ClaimedAccounts(OfKey(InPool(accounts, fm), id + " " + name), claimed)|
  {
    if accounts != [] {
      var front, last, key := accounts[..|accounts| - 1], accounts[|accounts| - 1], id + " " + name;
      NumberOfKey(front, fm, claimed, id, name);
      SelectConcat(InPool(front, fm), [last], (a: Account) => a.Key() == key);
      SelectSingle(last, (a: Account) => a.Key() == key);
      SelectConcat(OfKey(InPool(front, fm), key), [last], (a: Account) => a.claimed == claimed);
      SelectSingle(last, (a: Account) => a.claimed == claimed);
    }
  }

  lemma {:induction false} RowListed(accounts: seq<Account>, fm: bool, keys: seq<string>, x: Stats)
    requires Listing(keys, Entries(InPool(accounts, fm))) && x in Listed(Entries(InPool(accounts, fm)), keys)
    ensures RowOf(accounts, fm, x)
  {
    var pool := InPool(accounts, fm);
    ListedLength(Entries(pool), keys);
    var i :| 0 <= i < |keys| && Listed(Entries(pool), keys)[i] == x;
    EntryMeans(pool, keys[i]);
    OwnKey(pool, keys[i]);
    NumberOfKey(accounts, fm, true, x.id, x.name);
    NumberOfKey(accounts, fm, false, x.id, x.name);
    TotalPositive(pool, keys, x);
  }

  lemma OwnKey(accounts: seq<Account>, key: string)
    requires OfKey(accounts, key) != []
    ensures var own := OfKey(accounts, key); own[0].legalId + " " + own[0].legalName == key
  {
    var own := OfKey(accounts, key);
    SelectCount(accounts, (a: Account) => a.Key() == key, own[0]);
    CountIsMultiplicity(own, own[0]);
  }

  /** What `run` prints under each heading, told from the accounts alone. */
  lemma TableMeans(accounts: seq<Account>, fm: bool, top: seq<Stats>)
    requires TopOf(top, Entries(InPool(accounts, fm)), MAX_LEN)
    ensures exists rest :: TableOf(accounts, fm, top, rest)
  {
    var pool := InPool(accounts, fm);
    var rest, keys :| Cut(top, rest, keys, Entries(pool), MAX_LEN);
    LargestKept(top, rest, keys, Entries(pool), MAX_LEN);
    PoolConserved(pool, top, rest, keys, MAX_LEN);
    NumberInPool(accounts, fm, true);
    NumberInPool(accounts, fm, false);
    forall x | x in top + rest ensures RowOf(accounts, fm, x) {
      PermutationContains(top + rest, Listed(Entries(pool), keys), x);
      RowListed(accounts, fm, keys, x);
    }
    assert TableOf(accounts, fm, top, rest);
  }

  // ----- The cut -----

  /** The kept entries are in descending order and no entry that was cut off has a larger total than one that was kept. */
  lemma {:induction false} LargestKept(top: seq<Stats>, rest: seq<Stats>, keys: seq<string>, m: map<string, Stats>, maxLen: nat)
    requires Cut(top, rest, keys, m, maxLen)
    ensures |top| == (if |m| < maxLen then |m| else maxLen)
    ensures forall i, j | 0 <= i < j < |top| :: top[j].totalCount <= top[i].totalCount
    ensures forall i, j | 0 <= i < |top| && 0 <= j < |rest| :: rest[j].totalCount <= top[i].totalCount
  {
    var all := top + rest;
    SumPermuted(all, Listed(m, keys));
    ListedSize(m, keys);
    forall i, j | 0 <= i < j < |all| ensures all[j].totalCount <= all[i].totalCount {
      assert PairInOrder(all, MoreTotal, i, j);
    }
    forall i, j | 0 <= i < j < |top| ensures top[j].totalCount <= top[i].totalCount {
      assert all[i] == top[i] && all[j] == top[j];
    }
    forall i, j | 0 <= i < |top| && 0 <= j < |rest| ensures rest[j].totalCount <= top[i].totalCount {
      assert all[i] == top[i] && all[|top| + j] == rest[j];
    }
  }

  lemma {:induction false} ListedSize(m: map<string, Stats>, keys: seq<string>)
    requires Listing(keys, m)
    ensures |Listed(m, keys)| == |m|
  {
    ListedLength(m, keys);
    DistinctSize(keys, m.Keys);
  }

  lemma {:induction false} ListedLength(m: map<string, Stats>, keys: seq<string>)
    requires forall i | 0 <= i < |keys| :: keys[i] in m
    ensures |Listed(m, keys)| == |keys|
    ensures forall i | 0 <= i < |keys| :: Listed(m, keys)[i] == WithTotal(m[keys[i]])
  {
    if keys != [] {
      ListedLength(m, keys[..|keys| - 1]);
    }
  }

  lemma {:induction false} DistinctSize(keys: seq<string>, names: set<string>)
    requires Distinct(keys) && forall key :: key in keys <==> key in names
    ensures |keys| == |names|
  {
    if keys != [] {
      var front, last := keys[..|keys| - 1], keys[|keys| - 1];
      assert keys == front + [last];
      DistinctSize(front, names - {last});
    }
  }

  lemma {:induction false} TotalPositive(accounts: seq<Account>, keys: seq<string>, x: Stats)
    requires Listing(keys, Entries(accounts)) && x in Listed(Entries(accounts), keys)
    ensures x.totalCount > 0
  {
    var m := Entries(accounts);
    ListedLength(m, keys);
    var i :| 0 <= i < |keys| && Listed(m, keys)[i] == x;
    EntryMeans(accounts, keys[i]);
    ClaimedOrNot(OfKey(accounts, keys[i]));
  }

  /** The totals printed under the table cover the whole pool if and only if it has at most `maxLen` entries. */
  lemma {:induction false} PrintedTotalIff(accounts: seq<Account>, top: seq<Stats>, maxLen: nat)
    requires TopOf(top, Entries(accounts), maxLen)
    ensures SumTotal(top) == |accounts| <==> |Entries(accounts)| <= maxLen
  {
    var rest, keys :| Cut(top, rest, keys, Entries(accounts), maxLen);
    var all := Listed(Entries(accounts), keys);
    PoolConserved(accounts, top, rest, keys, maxLen);
    SumPermuted(top + rest, all);
    ListedSize(Entries(accounts), keys);
    if rest != [] {
      var last := rest[|rest| - 1];
      assert (top + rest)[|top + rest| - 1] == last;
      PermutationContains(top + rest, all, last);
      TotalPositive(accounts, keys, last);
    }
  }

  // ----- Keys -----

  /**
   Accounts of two legal entities share one entry exactly when the longer id continues the shorter one with a space and
   the names make up the difference.
   */
  lemma SharedKeyIff(a: Account, b: Account)
    requires |a.legalId| <= |b.legalId|
    ensures a.Key() == b.Key() <==>
      || (a.legalId == b.legalId && a.legalName == b.legalName)
      || (a.legalId + " " <= b.legalId && a.legalName == b.legalId[|a.legalId| + 1..] + " " + b.legalName)
  {
    var n := |a.legalId|;
    assert a.Key()[..n] == a.legalId && a.Key()[n] == ' ' && a.Key()[n + 1..] == a.legalName;
    if |b.legalId| == n {
      assert b.Key()[..n] == b.legalId && b.Key()[n + 1..] == b.legalName;
    } else {
      assert b.Key()[..n] == b.legalId[..n] && b.Key()[n] == b.legalId[n];
      assert b.Key()[n + 1..] == b.legalId[n + 1..] + " " + b.legalName;
      assert a.Key() == a.Key()[..n] + [a.Key()[n]] + a.Key()[n + 1..];
      assert b.Key() == b.Key()[..n] + [b.Key()[n]] + b.Key()[n + 1..];
      assert a.legalId + " " <= b.legalId <==> b.legalId[..n] == a.legalId && b.legalId[n] == ' ';
    }
  }

  /** Legal entity "2 x" with id "1" and legal entity "x" with id "1 2" are counted in one entry. */
  lemma SharedEntryExample()
    ensures var a, b := Account(true, "", "1", "2 x", false, ""), Account(true, "", "1 2", "x", false, "");
      a.Key() == b.Key() && Entries([a, b])[a.Key()] == Stats("2 x", "1", 2, 0, 0)
  {
    var a, b := Account(true, "", "1", "2 x", false, ""), Account(true, "", "1 2", "x", false, "");
    SharedKeyIff(a, b);
    assert [a, b][..1] == [a] && [a][..0] == [];
    assert Entries([a]) == AddAccount(Entries([]), a);
  }
}
