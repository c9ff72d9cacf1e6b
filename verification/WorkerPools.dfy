/**
 cmd/cluster/imdsv2.go, `migrateWorkersToIMDSv2`: worker MachinePools are patched one by one, each in two steps, and any
 request to Hive may fail.

 A request either succeeds, is refused without effect, or takes effect while its reply is lost. Nobody else writes the
 pools during a run.
 */
module WorkerPools {
  import opened Wrappers

  const OVERRIDE := "hive.openshift.io/override-machinepool-platform"
  const REQUIRED := "Required"

  /** `AWS` of a MachinePool's platform; `auth` is its EC2Metadata authentication, None where that is nil. */
  datatype Aws = Aws(instanceType: string, auth: Option<string>)

  datatype Pool = Pool(specName: string, annotations: map<string, string>, aws: Option<Aws>) {
    predicate Annotated() {
      OVERRIDE in annotations
    }

    predicate RequiresIMDSv2() {
      aws.Some? && aws.value.auth == Some(REQUIRED)
    }

    predicate Excluded() {
      specName == "master" || specName == "infra"
    }

    /** The pools a run picks. */
    predicate NeedsUpdate() {
      !Excluded() && !RequiresIMDSv2()
    }

    /** After the first patch. */
    function Patched(): Pool {
      var platform := if aws.Some? then aws.value else Aws("", None);
      this.(annotations := annotations[OVERRIDE := "true"], aws := Some(platform.(auth := Some(REQUIRED))))
    }

    /** After the second patch. */
    function Finished(): Pool {
      Patched().(annotations := annotations - {OVERRIDE})
    }
  }

  // ----- Hive -----

  datatype Reply = Done | Refused | ReplyLost

  datatype Error = ListFailed | GetFailed(pool: string) | PatchFailed(pool: string) | RefetchFailed(pool: string)
                 | CleanupFailed(pool: string)

  /** A merge patch: what changed from base to desired is written over the stored annotations, the rest of them is kept. */
  function MergeAnnotations(stored: map<string, string>, base: map<string, string>, desired: map<string, string>): map<string, string> {
    map k | k in stored.Keys + desired.Keys
            && (if k in desired && (k !in base || base[k] != desired[k]) then true else k in stored && (k in desired || k !in base))
          :: if k in desired && (k !in base || base[k] != desired[k]) then desired[k] else stored[k]
  }

  function MergePatch(stored: Pool, base: Pool, desired: Pool): Pool {
    Pool(
      if base.specName != desired.specName then desired.specName else stored.specName,
      MergeAnnotations(stored.annotations, base.annotations, desired.annotations),
      if base.aws != desired.aws then desired.aws else stored.aws)
  }

  /** Patching from the object last read installs the desired object. */
  lemma MergePatchFromStored(stored: Pool, desired: Pool)
    ensures MergePatch(stored, stored, desired) == desired
  {
    assert MergeAnnotations(stored.annotations, stored.annotations, desired.annotations) == desired.annotations;
  }

  class Hive {
    var pools: map<string, Pool>
    var replies: seq<Reply>

    constructor (pools: map<string, Pool>, replies: seq<Reply>)
      ensures this.pools == pools && this.replies == replies
    {
      this.pools := pools;
      this.replies := replies;
    }

    /** Every request still to come succeeds. */
    ghost predicate Reliable()
      reads this`replies
    {
      forall i | 0 <= i < |replies| :: replies[i] == Done
    }

    /** The fate of the next request. */
    method Next() returns (r: Reply)
      modifies this`replies
      ensures old(Reliable()) ==> r == Done && Reliable()
    {
      r := Done;
      if |replies| > 0 {
        r := replies[0];
        replies := replies[1..];
      }
    }

    /** All pools, in whatever order the API lists them. */
    method List() returns (r: Result<seq<string>, Error>)
      modifies this`replies
      ensures r.Ok? ==> Listing(r.value, pools)
      ensures r.Err? ==> r.error == ListFailed
      ensures old(Reliable()) ==> r.Ok? && Reliable()
    {
      var reply := Next();
      if reply != Done {
        return Err(ListFailed);
      }
      var names, rest := [], pools.Keys;
      while rest != {}
        invariant rest <= pools.Keys
        invariant forall n :: n in names <==> n in pools && n !in rest
        invariant forall i, j | 0 <= i < j < |names| :: names[i] != names[j]
        decreases rest
      {
        var n :| n in rest;
        names := names + [n];
        rest := rest - {n};
      }
      return Ok(names);
    }

    method Get(name: string) returns (r: Option<Pool>)
      modifies this`replies
      ensures r.Some? ==> name in pools && r.value == pools[name]
      ensures old(Reliable()) && name in pools ==> r.Some? && Reliable()
    {
      var reply := Next();
      if reply == Done && name in pools {
        return Some(pools[name]);
      }
      return None;
    }

    method Patch(name: string, base: Pool, desired: Pool) returns (ok: bool)
      requires name in pools
      modifies this
      ensures ok ==> pools == old(pools)[name := MergePatch(old(pools)[name], base, desired)]
      ensures pools == old(pools) || pools == old(pools)[name := MergePatch(old(pools)[name], base, desired)]
      ensures old(Reliable()) ==> ok && Reliable()
    {
      var reply := Next();
      if reply != Refused {
        pools := pools[name := MergePatch(pools[name], base, desired)];
      }
      ok := reply == Done;
    }
  }

  // ----- What a run does, pool by pool -----

  ghost predicate Listing(names: seq<string>, pools: map<string, Pool>) {
    && (forall n :: n in names <==> n in pools)
    && (forall i, j | 0 <= i < j < |names| :: names[i] != names[j])
  }

  /** How far a run got with one pool. */
  datatype Phase = Untouched | Annotated | Complete

  function InPhase(p: Pool, phase: Phase): Pool {
    match phase
    case Untouched => p
    case Annotated => p.Patched()
    case Complete => p.Finished()
  }

  /** The pools a run works on, each once. */
  ghost predicate Selection(order: seq<string>, pools: map<string, Pool>) {
    && (forall n :: n in order <==> n in pools && pools[n].NeedsUpdate())
    && (forall i, j | 0 <= i < j < |order| :: order[i] != order[j])
  }

  function PhaseAt(k: nat, phase: Phase, i: nat): Phase {
    if i < k then Complete else if i == k then phase else Untouched
  }

  /** The run completed the first k pools of its order, left pool k in the given phase, and touched nothing else. */
  ghost predicate Progress(before: map<string, Pool>, after: map<string, Pool>, order: seq<string>, k: nat, phase: Phase)
    requires forall i | 0 <= i < |order| :: order[i] in before
  {
    && after.Keys == before.Keys
    && (forall n | n in before && n !in order :: after[n] == before[n])
    && (forall i | 0 <= i < |order| :: after[order[i]] == InPhase(before[order[i]], PhaseAt(k, phase, i)))
  }

  /** Where in its order, and in which phase of that pool, a run that reports this error stopped. */
  ghost predicate StoppedAt(e: Error, order: seq<string>, k: nat, phase: Phase) {
    match e
    case ListFailed => k == 0 && phase == Untouched
    case GetFailed(n) => k < |order| && n == order[k] && phase == Untouched
    case PatchFailed(n) => k < |order| && n == order[k] && phase != Complete
    case RefetchFailed(n) => k < |order| && n == order[k] && phase == Annotated
    case CleanupFailed(n) => k < |order| && n == order[k] && phase != Untouched
  }

  /** Everything one run can do to the pools, and what it reports. */
  ghost predicate RunOf(before: map<string, Pool>, after: map<string, Pool>, confirmed: bool, r: Result<bool, Error>) {
    if r.Ok? && r.value then
      confirmed && exists order :: order != [] && Selection(order, before) && Progress(before, after, order, |order|, Untouched)
    else if r.Ok? then
      after == before && (confirmed ==> Selection([], before))
    else
      exists order, k: nat, phase ::
        Selection(order, before) && k <= |order| && Progress(before, after, order, k, phase) && StoppedAt(r.error, order, k, phase)
  }

  /** The two patches of one pool. */
  method PatchPool(hive: Hive, name: string) returns (r: Result<(), Error>, ghost phase: Phase)
    requires name in hive.pools
    modifies hive
    ensures hive.pools == old(hive.pools)[name := InPhase(old(hive.pools)[name], phase)]
    ensures r.Ok? ==> phase == Complete
    ensures r.Err? ==> StoppedAt(r.error, [name], 0, phase)
    ensures r.Err? ==> !r.error.ListFailed?
    ensures old(hive.Reliable()) ==> r.Ok? && hive.Reliable()
  {
    phase := Untouched;
    ghost var original := hive.pools[name];
    assert hive.pools == hive.pools[name := original];
    var mp := hive.Get(name);
    if mp.None? {
      return Err(GetFailed(name)), phase;
    }
    var desired := mp.value.(annotations := mp.value.annotations[OVERRIDE := "true"]);
    if desired.aws.None? {
      desired := desired.(aws := Some(Aws("", None)));
    }
    desired := desired.(aws := Some(desired.aws.value.(auth := Some(REQUIRED))));
    MergePatchFromStored(mp.value, desired);
    var ok := hive.Patch(name, mp.value, desired);
    phase := if hive.pools == old(hive.pools) then Untouched else Annotated;
    if !ok {
      return Err(PatchFailed(name)), phase;
    }
    phase := Annotated;
    mp := hive.Get(name);
    if mp.None? {
      return Err(RefetchFailed(name)), phase;
    }
    desired := mp.value.(annotations := mp.value.annotations - {OVERRIDE});
    assert desired.annotations == original.annotations - {OVERRIDE};
    MergePatchFromStored(mp.value, desired);
    ghost var annotated := hive.pools;
    ok := hive.Patch(name, mp.value, desired);
    phase := if hive.pools == annotated then Annotated else Complete;
    if !ok {
      return Err(CleanupFailed(name)), phase;
    }
    phase := Complete;
    return Ok(()), phase;
  }

  /** The pools of the listing that a run picks, in the order of the listing. */
  method SelectWorkers(hive: Hive, names: seq<string>) returns (workers: seq<string>)
    requires Listing(names, hive.pools)
    ensures Selection(workers, hive.pools)
  {
    workers := [];
    for i := 0 to |names|
      invariant forall n :: n in workers <==> n in names[..i] && hive.pools[n].NeedsUpdate()
      invariant forall a, b | 0 <= a < b < |workers| :: workers[a] != workers[b]
    {
      assert names[..i + 1] == names[..i] + [names[i]];
      assert names[i] !in names[..i];
      var mp := hive.pools[names[i]];
      if mp.specName == "master" || mp.specName == "infra" {
        continue;
      }
      var currentAuth := "Not configured";
      if mp.aws.Some? && mp.aws.value.auth.Some? {
        currentAuth := mp.aws.value.auth.value;
      }
      if currentAuth != REQUIRED {
        workers := workers + [names[i]];
      }
    }
    assert names[..|names|] == names;
  }

  method MigrateWorkers(hive: Hive, confirmed: bool) returns (r: Result<bool, Error>)
    modifies hive
    ensures RunOf(old(hive.pools), hive.pools, confirmed, r)
    ensures old(hive.Reliable()) ==> r.Ok?
  {
    ghost var before := hive.pools;
    var listed := hive.List();
    if listed.Err? {
      NoProgress(before);
      return Err(listed.error);
    }
    var workers := SelectWorkers(hive, listed.value);
    if |workers| == 0 {
      assert workers == [];
      return Ok(false);
    }
    if !confirmed {
      return Ok(false);
    }
    var anyPatched := false;
    for i := 0 to |workers|
      invariant Selection(workers, before)
      invariant Progress(before, hive.pools, workers, i, Untouched)
      invariant anyPatched <==> i > 0
      invariant old(hive.Reliable()) ==> hive.Reliable()
    {
      ghost var pools := hive.pools;
      var patched, phase := PatchPool(hive, workers[i]);
      ProgressNext(before, pools, hive.pools, workers, i, phase);
      if patched.Err? {
        return Err(patched.error);
      }
      anyPatched := true;
    }
    return Ok(anyPatched);
  }

  lemma NoProgress(before: map<string, Pool>)
    ensures exists order :: Selection(order, before) && Progress(before, before, order, 0, Untouched)
  {
    var order := Enumerate(set n | n in before && before[n].NeedsUpdate());
    assert Selection(order, before) && Progress(before, before, order, 0, Untouched);
  }

  ghost function Enumerate(names: set<string>): (order: seq<string>)
    ensures forall n :: n in order <==> n in names
    ensures forall i, j | 0 <= i < j < |order| :: order[i] != order[j]
  {
    if names == {} then []
    else
      var n :| n in names;
      [n] + Enumerate(names - {n})
  }

  lemma ProgressNext(before: map<string, Pool>, pools: map<string, Pool>, after: map<string, Pool>, order: seq<string>,
                     k: nat, phase: Phase)
    requires Selection(order, before) && k < |order|
    requires Progress(before, pools, order, k, Untouched)
    requires after == pools[order[k] := InPhase(pools[order[k]], phase)]
    ensures Progress(before, after, order, k, phase)
    ensures phase == Complete ==> Progress(before, after, order, k + 1, Untouched)
  {
    assert PhaseAt(k, Untouched, k) == Untouched;
    forall i | 0 <= i < |order|
      ensures after[order[i]] == InPhase(before[order[i]], PhaseAt(k, phase, i))
      ensures phase == Complete ==> PhaseAt(k, phase, i) == PhaseAt(k + 1, Untouched, i)
    {
    }
  }

  // ----- Properties of one run -----

  ghost function AnnotatedPools(pools: map<string, Pool>): set<string> {
    set n | n in pools && pools[n].Annotated()
  }

  /** What one run does to one pool: at most pool k of its order gains the annotation. */
  lemma PoolAfter(before: map<string, Pool>, after: map<string, Pool>, order: seq<string>, k: nat, phase: Phase, n: string)
    requires Selection(order, before) && k <= |order| && Progress(before, after, order, k, phase) && n in before
    ensures n in after
    ensures !before[n].NeedsUpdate() ==> after[n] == before[n]
    ensures before[n].RequiresIMDSv2() ==> after[n].RequiresIMDSv2()
    ensures after[n].Annotated() ==> before[n].Annotated() || (k < |order| && n == order[k] && phase == Annotated)
    ensures k == |order| && before[n].NeedsUpdate() ==> after[n] == before[n].Finished()
  {
    if before[n].NeedsUpdate() {
      var i :| 0 <= i < |order| && order[i] == n;
      assert after[n] == InPhase(before[n], PhaseAt(k, phase, i));
    }
  }

  /** The outcome of any run, failed or not, as progress along some order of the pools it picks. */
  lemma RunProgress(before: map<string, Pool>, after: map<string, Pool>, confirmed: bool, r: Result<bool, Error>)
    returns (order: seq<string>, k: nat, phase: Phase)
    requires RunOf(before, after, confirmed, r)
    ensures Selection(order, before) && k <= |order| && Progress(before, after, order, k, phase)
    ensures if r.Ok? then phase == Untouched else StoppedAt(r.error, order, k, phase)
    ensures r.Ok? && confirmed ==> k == |order|
  {
    if r.Ok? && r.value {
      order :| order != [] && Selection(order, before) && Progress(before, after, order, |order|, Untouched);
      k, phase := |order|, Untouched;
    } else if r.Ok? {
      k, phase := 0, Untouched;
      if confirmed {
        order := [];
      } else {
        NoProgress(before);
        order :| Selection(order, before) && Progress(before, before, order, 0, Untouched);
      }
    } else {
      order, k, phase :|
        Selection(order, before) && k <= |order| && Progress(before, after, order, k, phase) && StoppedAt(r.error, order, k, phase);
    }
  }

  /** The errors after which an annotation can be left behind. */
  predicate MayLeak(r: Result<bool, Error>) {
    r.Err? && (r.error.PatchFailed? || r.error.RefetchFailed? || r.error.CleanupFailed?)
  }

  /** However a run ends, at most one more pool carries the annotation; none more unless it failed after its first patch was sent. */
  lemma AtMostOneMore(before: map<string, Pool>, after: map<string, Pool>, confirmed: bool, r: Result<bool, Error>)
    requires RunOf(before, after, confirmed, r)
    ensures |AnnotatedPools(after)| <= |AnnotatedPools(before)| + (if MayLeak(r) then 1 else 0)
  {
    var order, k, phase := RunProgress(before, after, confirmed, r);
    var a, b := AnnotatedPools(after), AnnotatedPools(before);
    forall n | n in a ensures n in b || (k < |order| && n == order[k] && phase == Annotated && MayLeak(r)) {
      PoolAfter(before, after, order, k, phase, n);
    }
    if k < |order| && MayLeak(r) {
      assert a <= b + {order[k]};
      SubsetSize(a, b + {order[k]});
    } else {
      assert a <= b;
      SubsetSize(a, b);
    }
  }

  lemma {:induction false} SubsetSize<T>(a: set<T>, b: set<T>)
    requires a <= b
    ensures |a| <= |b|
  {
    if a != {} {
      var x :| x in a;
      SubsetSize(a - {x}, b - {x});
    }
  }

  /**
   What is left of a pool: its name, its instance type, every annotation but the override, and its platform unless that now
   has the authentication "Required". An override whose value is not "true" is one the pool had before, and then all is left.
   */
  ghost predicate Keeps(b: Pool, a: Pool) {
    && a.specName == b.specName
    && (b.aws.Some? ==> a.aws.Some? && a.aws.value.instanceType == b.aws.value.instanceType)
    && (b.aws.None? && a.aws.Some? ==> a.aws.value.instanceType == "")
    && (a.aws != b.aws ==> a.aws.Some? && a.aws.value.auth == Some("Required"))
    && var override := "hive.openshift.io/override-machinepool-platform";
    && (forall key | key != override ::
         && (key in a.annotations <==> key in b.annotations)
         && (key in a.annotations ==> a.annotations[key] == b.annotations[key]))
    && (override in a.annotations && a.annotations[override] != "true" ==> a == b)
  }

  lemma PhaseKeeps(b: Pool, phase: Phase)
    ensures Keeps(b, InPhase(b, phase))
  {
  }

  /** Any run, however it ends, adds and removes no pool and keeps this much of each. */
  lemma PoolKept(before: map<string, Pool>, after: map<string, Pool>, confirmed: bool, r: Result<bool, Error>, n: string)
    requires RunOf(before, after, confirmed, r) && n in before
    ensures after.Keys == before.Keys && Keeps(before[n], after[n])
  {
    var order, k, phase := RunProgress(before, after, confirmed, r);
    if n in order {
      var i :| 0 <= i < |order| && order[i] == n;
      PhaseKeeps(before[n], PhaseAt(k, phase, i));
    } else {
      PhaseKeeps(before[n], Untouched);
    }
  }

  /** A run that cannot read a pool back after its first patch always leaves that pool requiring IMDSv2 and annotated. */
  lemma RefetchFailureLeaks(before: map<string, Pool>, after: map<string, Pool>, confirmed: bool, r: Result<bool, Error>)
    requires RunOf(before, after, confirmed, r) && r.Err? && r.error.RefetchFailed?
    ensures r.error.pool in before && before[r.error.pool].NeedsUpdate()
    ensures r.error.pool in after && after[r.error.pool] == before[r.error.pool].Patched()
    ensures after[r.error.pool].aws.value.auth == Some("Required")
    ensures OVERRIDE in after[r.error.pool].annotations && after[r.error.pool].annotations[OVERRIDE] == "true"
  {
    var order, k, phase := RunProgress(before, after, confirmed, r);
    assert order[k] in order;
  }

  /** A confirmed run that reports success leaves every worker pool requiring IMDSv2, and each pool it picked without the annotation. */
  lemma SuccessCompletes(before: map<string, Pool>, after: map<string, Pool>, r: Result<bool, Error>, n: string)
    requires RunOf(before, after, true, r) && r.Ok? && n in before
    ensures n in after
    ensures before[n].specName != "master" && before[n].specName != "infra" ==>
      after[n].aws.Some? && after[n].aws.value.auth == Some("Required")
    ensures after[n] != before[n] ==> OVERRIDE !in after[n].annotations
    ensures before[n].NeedsUpdate() ==> after[n] == before[n].Finished() && !after[n].Annotated()
    ensures !before[n].NeedsUpdate() ==> after[n] == before[n]
  {
    var order, k, phase := RunProgress(before, after, true, r);
    PoolAfter(before, after, order, k, phase, n);
  }

  /** No run, however it ends, touches master and infra pools or worker pools that already require IMDSv2. */
  lemma OthersUntouched(before: map<string, Pool>, after: map<string, Pool>, confirmed: bool, r: Result<bool, Error>, n: string)
    requires RunOf(before, after, confirmed, r) && n in before
    requires
      || before[n].specName == "master" || before[n].specName == "infra"
      || (before[n].aws.Some? && before[n].aws.value.auth == Some("Required"))
    ensures n in after && after[n] == before[n]
  {
    var order, k, phase := RunProgress(before, after, confirmed, r);
    PoolAfter(before, after, order, k, phase, n);
  }

  /** No error and false: nothing changed, and a confirmed run found no pool to pick. */
  lemma NothingPatched(before: map<string, Pool>, after: map<string, Pool>, confirmed: bool, n: string)
    requires RunOf(before, after, confirmed, Ok(false))
    ensures after == before
    ensures confirmed && n in before ==> !before[n].NeedsUpdate()
  {
    assert confirmed ==> Selection([], before);
  }

  lemma FinishedDiffers(p: Pool)
    requires p.NeedsUpdate()
    ensures p.Finished() != p
  {
    assert p.Finished().RequiresIMDSv2();
  }

  /** No error and true: the run was confirmed, and some pool it picked changed. */
  lemma SomethingPatched(before: map<string, Pool>, after: map<string, Pool>, confirmed: bool) returns (n: string)
    requires RunOf(before, after, confirmed, Ok(true))
    ensures confirmed && n in before && n in after && before[n].NeedsUpdate() && after[n] != before[n]
  {
    var order: seq<string> :| order != [] && Selection(order, before) && Progress(before, after, order, |order|, Untouched);
    n := order[0];
    assert n in order;
    PoolAfter(before, after, order, |order|, Untouched, n);
    FinishedDiffers(before[n]);
  }

  /** How far the run got with the pool its error names. */
  ghost predicate LeftAs(e: Error, b: Pool, a: Pool) {
    match e
    case ListFailed => a == b
    case GetFailed(_) => a == b
    case PatchFailed(_) => a == b || (a.RequiresIMDSv2() && a.Annotated())
    case RefetchFailed(_) => a.RequiresIMDSv2() && a.Annotated()
    case CleanupFailed(_) => a.RequiresIMDSv2()
  }

  /** An error that names a pool: that pool was to be picked, and every other pool is either as it was or completed. */
  lemma ErrorMeans(before: map<string, Pool>, after: map<string, Pool>, confirmed: bool, e: Error, n: string)
    requires RunOf(before, after, confirmed, Err(e)) && n in before
    ensures n in after
    ensures e.ListFailed? ==> after[n] == before[n]
    ensures !e.ListFailed? ==> e.pool in before && before[e.pool].NeedsUpdate()
    ensures !e.ListFailed? && n == e.pool ==> LeftAs(e, before[n], after[n])
    ensures !e.ListFailed? && n != e.pool ==> after[n] == before[n] || (after[n].RequiresIMDSv2() && !after[n].Annotated())
  {
    var order, k, phase := RunProgress(before, after, confirmed, Err(e));
    if !e.ListFailed? {
      assert order[k] in order;
    }
    if n in order {
      var i :| 0 <= i < |order| && order[i] == n;
      assert after[n] == InPhase(before[n], PhaseAt(k, phase, i));
    }
  }

  // ----- Sequences of runs -----

  datatype Run = Run(after: map<string, Pool>, confirmed: bool, result: Result<bool, Error>)

  function PoolsAfter(start: map<string, Pool>, runs: seq<Run>, n: nat): map<string, Pool>
    requires n <= |runs|
  {
    if n == 0 then start else runs[n - 1].after
  }

  ghost predicate RunAt(start: map<string, Pool>, runs: seq<Run>, i: nat)
    requires i < |runs|
  {
    RunOf(PoolsAfter(start, runs, i), runs[i].after, runs[i].confirmed, runs[i].result)
  }

  ghost predicate Runs(start: map<string, Pool>, runs: seq<Run>) {
    forall i | 0 <= i < |runs| :: RunAt(start, runs, i)
  }

  /** How many of the first n runs failed after a first patch was sent. */
  function Failures(runs: seq<Run>, n: nat): nat
    requires n <= |runs|
  {
    if n == 0 then 0 else Failures(runs, n - 1) + (if MayLeak(runs[n - 1].result) then 1 else 0)
  }

  /** After any runs the annotated pools outnumber the initial ones by at most the number of such failures. */
  lemma {:induction false} LeaksAtMostFailures(start: map<string, Pool>, runs: seq<Run>, n: nat)
    requires Runs(start, runs) && n <= |runs|
    ensures |AnnotatedPools(PoolsAfter(start, runs, n))| <= |AnnotatedPools(start)| + Failures(runs, n)
  {
    if n > 0 {
      LeaksAtMostFailures(start, runs, n - 1);
      assert RunAt(start, runs, n - 1);
      AtMostOneMore(PoolsAfter(start, runs, n - 1), runs[n - 1].after, runs[n - 1].confirmed, runs[n - 1].result);
    }
  }

  /**
   A pool that a failed run left requiring IMDSv2 with the annotation still on it is never picked again: no number of
   later runs removes the annotation. The same frame keeps every excluded pool as it was.
   */
  lemma {:induction false} NeverPickedAgain(start: map<string, Pool>, runs: seq<Run>, n: nat, name: string)
    requires Runs(start, runs) && n <= |runs| && name in start && !start[name].NeedsUpdate()
    ensures name in PoolsAfter(start, runs, n) && PoolsAfter(start, runs, n)[name] == start[name]
  {
    if n > 0 {
      NeverPickedAgain(start, runs, n - 1, name);
      assert RunAt(start, runs, n - 1);
      OthersUntouched(PoolsAfter(start, runs, n - 1), runs[n - 1].after, runs[n - 1].confirmed, runs[n - 1].result, name);
    }
  }

  /** The annotation left behind by a failed re-fetch stays for good, whatever runs follow. */
  lemma LeakIsPermanent(before: map<string, Pool>, after: map<string, Pool>, confirmed: bool, r: Result<bool, Error>,
                        runs: seq<Run>, n: nat)
    requires RunOf(before, after, confirmed, r) && r.Err? && r.error.RefetchFailed?
    requires Runs(after, runs) && n <= |runs|
    ensures r.error.pool in PoolsAfter(after, runs, n) && PoolsAfter(after, runs, n)[r.error.pool].Annotated()
  {
    RefetchFailureLeaks(before, after, confirmed, r);
    NeverPickedAgain(after, runs, n, r.error.pool);
  }
}
