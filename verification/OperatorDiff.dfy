/**
 cmd/cluster/diff.go: the comparison of the cluster operators of two snapshots.

 Go yields the names of a map in any order, so only the differences of each single operator come in a definite order.
 `DiffsOf` gives them; `CompareOperators` is specified by saying that its result, restricted to any name, is `DiffsOf`
 that name.
 */
module OperatorDiff {
  import opened Wrappers
  import opened Selection

  datatype OperatorSnapshot = OperatorSnapshot(
    name: string, available: bool, progressing: bool, degraded: bool, version: string, conditions: seq<string>)

  datatype ChangeType = Added | Removed | Modified

  datatype Field = Whole | Available | Degraded | Progressing | Version | Conditions

  /** `before` and `after` are the rendered values; the empty string where the source leaves them out. */
  datatype OperatorChange = OperatorChange(name: string, changeType: ChangeType, field: Field, before: string, after: string)

  function Bool(b: bool): string {
    if b then "true" else "false"
  }

  function Join(parts: seq<string>): string {
    if parts == [] then "" else if |parts| == 1 then parts[0] else parts[0] + ", " + Join(parts[1..])
  }

  function FormatOperatorStatus(op: OperatorSnapshot): string {
    "Available=" + Bool(op.available) + ", Degraded=" + Bool(op.degraded)
    + ", Progressing=" + Bool(op.progressing) + ", Version=" + op.version
  }

  method SlicesEqual(a: seq<string>, b: seq<string>) returns (equal: bool)
    ensures equal <==> a == b
  {
    if |a| != |b| {
      return false;
    }
    for i := 0 to |a|
      invariant a[..i] == b[..i]
    {
      if a[i] != b[i] {
        return false;
      }
    }
    return true;
  }

  // ----- Name maps -----

  /** The last operator of each name wins. */
  function ByName(ops: seq<OperatorSnapshot>): map<string, OperatorSnapshot> {
    if ops == [] then map[] else ByName(ops[..|ops| - 1])[ops[|ops| - 1].name := ops[|ops| - 1]]
  }

  method MapByName(ops: seq<OperatorSnapshot>) returns (m: map<string, OperatorSnapshot>)
    ensures m == ByName(ops)
  {
    m := map[];
    for i := 0 to |ops|
      invariant m == ByName(ops[..i])
    {
      assert ops[..i + 1][..i] == ops[..i];
      m := m[ops[i].name := ops[i]];
    }
    assert ops[..|ops|] == ops;
  }

  function At(m: map<string, OperatorSnapshot>, name: string): Option<OperatorSnapshot> {
    if name in m then Some(m[name]) else None
  }

  lemma {:induction false} ByNameKeys(ops: seq<OperatorSnapshot>, name: string)
    ensures name in ByName(ops) <==> exists i | 0 <= i < |ops| :: ops[i].name == name
    ensures name in ByName(ops) ==> ByName(ops)[name].name == name && ByName(ops)[name] in ops
  {
    if ops != [] {
      var front := ops[..|ops| - 1];
      ByNameKeys(front, name);
      assert forall i | 0 <= i < |front| :: front[i] == ops[i];
    }
  }

  /** Of operators with one name, the map holds the last. */
  lemma {:induction false} ByNameLast(ops: seq<OperatorSnapshot>, i: nat)
    requires i < |ops| && forall j | i < j < |ops| :: ops[j].name != ops[i].name
    ensures ops[i].name in ByName(ops) && ByName(ops)[ops[i].name] == ops[i]
  {
    if i < |ops| - 1 {
      ByNameLast(ops[..|ops| - 1], i);
    }
  }

  // ----- The differences of one operator -----

  function Change(name: string, field: Field, before: string, after: string): OperatorChange {
    OperatorChange(name, Modified, field, before, after)
  }

  function AppendIf(s: seq<OperatorChange>, changed: bool, d: OperatorChange): seq<OperatorChange> {
    if changed then s + [d] else s
  }

  function AvailableDiff(name: string, b: OperatorSnapshot, a: OperatorSnapshot): seq<OperatorChange> {
    AppendIf([], b.available != a.available, Change(name, Available, Bool(b.available), Bool(a.available)))
  }

  function UpToDegraded(name: string, b: OperatorSnapshot, a: OperatorSnapshot): seq<OperatorChange> {
    AppendIf(AvailableDiff(name, b, a), b.degraded != a.degraded, Change(name, Degraded, Bool(b.degraded), Bool(a.degraded)))
  }

  function UpToProgressing(name: string, b: OperatorSnapshot, a: OperatorSnapshot): seq<OperatorChange> {
    AppendIf(UpToDegraded(name, b, a), b.progressing != a.progressing,
             Change(name, Progressing, Bool(b.progressing), Bool(a.progressing)))
  }

  function UpToVersion(name: string, b: OperatorSnapshot, a: OperatorSnapshot): seq<OperatorChange> {
    AppendIf(UpToProgressing(name, b, a), b.version != a.version, Change(name, Version, b.version, a.version))
  }

  /** One entry per field that differs, in the order in which the fields are compared. */
  function FieldDiffs(name: string, b: OperatorSnapshot, a: OperatorSnapshot): seq<OperatorChange> {
    AppendIf(UpToVersion(name, b, a), b.conditions != a.conditions,
             Change(name, Conditions, Join(b.conditions), Join(a.conditions)))
  }

  function DiffsOf(name: string, b: Option<OperatorSnapshot>, a: Option<OperatorSnapshot>): seq<OperatorChange> {
    match (b, a)
    case (None, None) => []
    case (None, Some(x)) => [OperatorChange(name, Added, Whole, "", FormatOperatorStatus(x))]
    case (Some(x), None) => [OperatorChange(name, Removed, Whole, FormatOperatorStatus(x), "")]
    case (Some(x), Some(y)) => FieldDiffs(name, x, y)
  }

  function Named(diffs: seq<OperatorChange>, name: string): seq<OperatorChange> {
    Select(diffs, (d: OperatorChange) => d.name == name)
  }

  /** The diff holds, for every name, exactly that name's differences. */
  ghost predicate DiffOf(diffs: seq<OperatorChange>, before: map<string, OperatorSnapshot>, after: map<string, OperatorSnapshot>) {
    forall name :: Named(diffs, name) == DiffsOf(name, At(before, name), At(after, name))
  }

  lemma {:induction false} NamedAll(s: seq<OperatorChange>, name: string, n: string)
    requires forall d | d in s :: d.name == n
    ensures Named(s, name) == if name == n then s else []
  {
    if s != [] {
      NamedAll(s[..|s| - 1], name, n);
      assert s[|s| - 1] in s;
      assert s == s[..|s| - 1] + [s[|s| - 1]];
    }
  }

  /** Appending the differences of one name leaves those of every other name alone. */
  lemma NamedAppend(diffs: seq<OperatorChange>, more: seq<OperatorChange>, n: string)
    requires forall d | d in more :: d.name == n
    ensures forall name :: Named(diffs + more, name) == Named(diffs, name) + (if name == n then more else [])
  {
    forall name ensures Named(diffs + more, name) == Named(diffs, name) + (if name == n then more else []) {
      SelectConcat(diffs, more, (d: OperatorChange) => d.name == name);
      NamedAll(more, name, n);
    }
  }

  /** The differences of one operator that both snapshots hold. */
  method CompareFields(name: string, b: OperatorSnapshot, a: OperatorSnapshot) returns (diffs: seq<OperatorChange>)
    ensures diffs == FieldDiffs(name, b, a)
  {
    diffs := [];
    if b.available != a.available {
      diffs := diffs + [Change(name, Available, Bool(b.available), Bool(a.available))];
    }
    if b.degraded != a.degraded {
      diffs := diffs + [Change(name, Degraded, Bool(b.degraded), Bool(a.degraded))];
    }
    if b.progressing != a.progressing {
      diffs := diffs + [Change(name, Progressing, Bool(b.progressing), Bool(a.progressing))];
    }
    if b.version != a.version {
      diffs := diffs + [Change(name, Version, b.version, a.version)];
    }
    var same := SlicesEqual(b.conditions, a.conditions);
    if !same {
      diffs := diffs + [Change(name, Conditions, Join(b.conditions), Join(a.conditions))];
    }
  }

  lemma DiffsNamed(name: string, b: Option<OperatorSnapshot>, a: Option<OperatorSnapshot>)
    ensures forall d | d in DiffsOf(name, b, a) :: d.name == name
  {
    if b.Some? && a.Some? {
      FieldsNamed(name, b.value, a.value);
    }
  }

  ghost predicate AllNamed(s: seq<OperatorChange>, name: string) {
    forall d | d in s :: d.name == name
  }

  lemma AppendNamed(s: seq<OperatorChange>, changed: bool, d: OperatorChange, name: string)
    requires AllNamed(s, name) && d.name == name
    ensures AllNamed(AppendIf(s, changed, d), name)
  {
  }

  lemma FieldsNamed(name: string, b: OperatorSnapshot, a: OperatorSnapshot)
    ensures AllNamed(FieldDiffs(name, b, a), name)
  {
    AppendNamed([], b.available != a.available, Change(name, Available, Bool(b.available), Bool(a.available)), name);
    AppendNamed(AvailableDiff(name, b, a), b.degraded != a.degraded,
                Change(name, Degraded, Bool(b.degraded), Bool(a.degraded)), name);
    AppendNamed(UpToDegraded(name, b, a), b.progressing != a.progressing,
                Change(name, Progressing, Bool(b.progressing), Bool(a.progressing)), name);
    AppendNamed(UpToProgressing(name, b, a), b.version != a.version, Change(name, Version, b.version, a.version), name);
    AppendNamed(UpToVersion(name, b, a), b.conditions != a.conditions,
                Change(name, Conditions, Join(b.conditions), Join(a.conditions)), name);
  }

  /** The diff so far: complete for the names that are done, empty for all others. */
  ghost predicate DiffSoFar(diffs: seq<OperatorChange>, before: map<string, OperatorSnapshot>,
                            after: map<string, OperatorSnapshot>, done: set<string>)
  {
    forall name :: Named(diffs, name) == (if name in done then DiffsOf(name, At(before, name), At(after, name)) else [])
  }

  lemma DiffNext(diffs: seq<OperatorChange>, more: seq<OperatorChange>, before: map<string, OperatorSnapshot>,
                 after: map<string, OperatorSnapshot>, done: set<string>, name: string)
    requires DiffSoFar(diffs, before, after, done) && name !in done
    requires more == DiffsOf(name, At(before, name), At(after, name))
    ensures DiffSoFar(diffs + more, before, after, done + {name})
  {
    DiffsNamed(name, At(before, name), At(after, name));
    NamedAppend(diffs, more, name);
  }

  lemma DiffComplete(diffs: seq<OperatorChange>, before: map<string, OperatorSnapshot>, after: map<string, OperatorSnapshot>)
    requires DiffSoFar(diffs, before, after, after.Keys + before.Keys)
    ensures DiffOf(diffs, before, after)
  {
    forall name ensures Named(diffs, name) == DiffsOf(name, At(before, name), At(after, name)) {
    }
  }

  /** The loop over the new snapshot: added and modified operators. */
  method CompareAfter(beforeMap: map<string, OperatorSnapshot>, afterMap: map<string, OperatorSnapshot>)
    returns (diffs: seq<OperatorChange>)
    ensures DiffSoFar(diffs, beforeMap, afterMap, afterMap.Keys)
  {
    diffs := [];
    var names := afterMap.Keys;
    ghost var done := {};
    while names != {}
      invariant names + done == afterMap.Keys && names !! done
      invariant DiffSoFar(diffs, beforeMap, afterMap, done)
      decreases names
    {
      var name :| name in names;
      var more;
      if name !in beforeMap {
        more := [OperatorChange(name, Added, Whole, "", FormatOperatorStatus(afterMap[name]))];
      } else {
        more := CompareFields(name, beforeMap[name], afterMap[name]);
      }
      DiffNext(diffs, more, beforeMap, afterMap, done, name);
      diffs := diffs + more;
      names := names - {name};
      done := done + {name};
    }
    assert done == afterMap.Keys;
  }

  lemma DoneNext(after: set<string>, before: set<string>, names: set<string>, name: string)
    requires names <= before && name in names
    ensures after + (before - names) + {name} == after + (before - (names - {name}))
    ensures name in after ==> after + (before - names) + {name} == after + (before - names)
    ensures name !in after ==> name !in after + (before - names)
  {
  }

  /** The loop over the old snapshot: removed operators. */
  method CompareBefore(beforeMap: map<string, OperatorSnapshot>, afterMap: map<string, OperatorSnapshot>,
                       found: seq<OperatorChange>) returns (diffs: seq<OperatorChange>)
    requires DiffSoFar(found, beforeMap, afterMap, afterMap.Keys)
    ensures DiffSoFar(diffs, beforeMap, afterMap, afterMap.Keys + beforeMap.Keys)
  {
    diffs := found;
    var names := beforeMap.Keys;
    ghost var done := afterMap.Keys;
    assert done == afterMap.Keys + (beforeMap.Keys - names);
    while names != {}
      invariant names <= beforeMap.Keys
      invariant done == afterMap.Keys + (beforeMap.Keys - names)
      invariant DiffSoFar(diffs, beforeMap, afterMap, done)
      decreases names
    {
      var name :| name in names;
      DoneNext(afterMap.Keys, beforeMap.Keys, names, name);
      if name !in afterMap {
        var more := [OperatorChange(name, Removed, Whole, FormatOperatorStatus(beforeMap[name]), "")];
        DiffNext(diffs, more, beforeMap, afterMap, done, name);
        diffs := diffs + more;
      }
      done := done + {name};
      names := names - {name};
    }
    assert done == afterMap.Keys + beforeMap.Keys;
  }

  method CompareOperators(before: seq<OperatorSnapshot>, after: seq<OperatorSnapshot>) returns (diffs: seq<OperatorChange>)
    ensures DiffOf(diffs, ByName(before), ByName(after))
    ensures forall d :: Count(diffs, d) == One(Belongs(d, At(ByName(before), d.name), At(ByName(after), d.name)))
  {
    var beforeMap := MapByName(before);
    var afterMap := MapByName(after);
    diffs := CompareAfter(beforeMap, afterMap);
    diffs := CompareBefore(beforeMap, afterMap, diffs);
    DiffComplete(diffs, beforeMap, afterMap);
    forall d ensures Count(diffs, d) == One(Belongs(d, At(beforeMap, d.name), At(afterMap, d.name))) {
      DiffHolds(diffs, beforeMap, afterMap, d);
    }
  }

  // ----- Properties -----

  /** Equal as far as a snapshot records them. */
  ghost predicate SameOperators(before: map<string, OperatorSnapshot>, after: map<string, OperatorSnapshot>) {
    before.Keys == after.Keys && forall name | name in before :: before[name].(name := "") == after[name].(name := "")
  }

  // The rendered values

  lemma {:induction false} JoinLast(parts: seq<string>, last: string)
    ensures Join(parts + [last]) == if parts == [] then last else Join(parts) + ", " + last
  {
    if parts != [] {
      JoinLast(parts[1..], last);
      assert (parts + [last])[1..] == parts[1..] + [last];
    }
  }

  lemma StatusExample(name: string, version: string, conditions: seq<string>)
    ensures FormatOperatorStatus(OperatorSnapshot(name, true, true, false, version, conditions)) ==
      "Available=" + "true" + ", Degraded=" + "false" + ", Progressing=" + "true" + ", Version=" + version
    ensures FormatOperatorStatus(OperatorSnapshot(name, false, false, true, version, conditions)) ==
      "Available=" + "false" + ", Degraded=" + "true" + ", Progressing=" + "false" + ", Version=" + version
  {
  }

  lemma FlagRead(title: string, a: bool, b: bool, x: string, y: string)
    ensures title + Bool(a) + x == title + Bool(b) + y <==> a == b && x == y
  {
    var s, t := title + Bool(a) + x, title + Bool(b) + y;
    if s == t {
      assert s[|title|] == Bool(a)[0] && t[|title|] == Bool(b)[0];
      assert a == b;
      assert s[|title| + |Bool(a)|..] == x && t[|title| + |Bool(b)|..] == y;
    }
  }

  function StatusWith(p: string, q: string, r: string, s: string, op: OperatorSnapshot): string {
    p + Bool(op.available) + q + Bool(op.degraded) + r + Bool(op.progressing) + s + op.version
  }

  lemma Regroup(a: string, b: string, c: string, d: string)
    ensures a + b + c + d == a + (b + c + d)
  {
  }

  lemma StatusParts(p: string, q: string, r: string, s: string, op: OperatorSnapshot)
    ensures StatusWith(p, q, r, s, op) ==
      p + Bool(op.available) + (q + Bool(op.degraded) + (r + Bool(op.progressing) + (s + op.version)))
  {
    var front := p + Bool(op.available);
    var upToQ := front + q + Bool(op.degraded);
    Regroup(upToQ, r, Bool(op.progressing), s + op.version);
    Regroup(front, q, Bool(op.degraded), r + Bool(op.progressing) + (s + op.version));
    Regroup([], upToQ + r + Bool(op.progressing), s, op.version);
    assert [] + (upToQ + r + Bool(op.progressing)) == upToQ + r + Bool(op.progressing);
    assert upToQ + r + Bool(op.progressing) + s + op.version == upToQ + r + Bool(op.progressing) + (s + op.version);
  }

  lemma StatusWithTells(p: string, q: string, r: string, s: string, x: OperatorSnapshot, y: OperatorSnapshot)
    ensures StatusWith(p, q, r, s, x) == StatusWith(p, q, r, s, y) <==>
      x.available == y.available && x.degraded == y.degraded && x.progressing == y.progressing && x.version == y.version
  {
    StatusParts(p, q, r, s, x);
    StatusParts(p, q, r, s, y);
    var v, w := s + x.version, s + y.version;
    TailRead(s, x.version, y.version);
    FlagRead(r, x.progressing, y.progressing, v, w);
    var c, d := r + Bool(x.progressing) + v, r + Bool(y.progressing) + w;
    FlagRead(q, x.degraded, y.degraded, c, d);
    FlagRead(p, x.available, y.available, q + Bool(x.degraded) + c, q + Bool(y.degraded) + d);
  }

  lemma TailRead(title: string, x: string, y: string)
    ensures title + x == title + y <==> x == y
  {
    assert (title + x)[|title|..] == x && (title + y)[|title|..] == y;
  }

  /** The status of an added or removed operator tells its three flags and its version, whatever the version contains. */
  lemma StatusTells(x: OperatorSnapshot, y: OperatorSnapshot)
    ensures FormatOperatorStatus(x) == FormatOperatorStatus(y) <==>
      x.available == y.available && x.degraded == y.degraded && x.progressing == y.progressing && x.version == y.version
  {
    StatusWithTells("Available=", ", Degraded=", ", Progressing=", ", Version=", x, y);
  }

  /** Conditions that differ can be shown alike: the separator may be part of one of them. */
  lemma ConditionsAlikeExample(name: string)
    ensures Belongs(OperatorChange(name, Modified, Conditions, "x, y", "x, y"),
                    Some(OperatorSnapshot(name, true, false, false, "", ["x, y"])),
                    Some(OperatorSnapshot(name, true, false, false, "", ["x", "y"])))
  {
    assert Join(["x", "y"][1..]) == "y";
    assert "x" + ", " + "y" == "x, y";
  }

  // The entries

  ghost predicate Flips(b: bool, a: bool, before: string, after: string) {
    (b && !a && before == "true" && after == "false") || (!b && a && before == "false" && after == "true")
  }

  /** The entries that belong in the diff, for an operator as the old and as the new snapshot hold it. */
  ghost predicate Belongs(d: OperatorChange, b: Option<OperatorSnapshot>, a: Option<OperatorSnapshot>) {
    match d.changeType
    case Added => b.None? && a.Some? && d.field == Whole && d.before == "" && d.after == FormatOperatorStatus(a.value)
    case Removed => b.Some? && a.None? && d.field == Whole && d.before == FormatOperatorStatus(b.value) && d.after == ""
    case Modified =>
      && b.Some? && a.Some?
      && match d.field
         case Whole => false
         case Available => Flips(b.value.available, a.value.available, d.before, d.after)
         case Degraded => Flips(b.value.degraded, a.value.degraded, d.before, d.after)
         case Progressing => Flips(b.value.progressing, a.value.progressing, d.before, d.after)
         case Version => b.value.version != a.value.version && d.before == b.value.version && d.after == a.value.version
         case Conditions =>
           && b.value.conditions != a.value.conditions
           && d.before == Join(b.value.conditions) && d.after == Join(a.value.conditions)
  }

  lemma {:induction false} CountAppendIf(s: seq<OperatorChange>, changed: bool, x: OperatorChange, d: OperatorChange)
    ensures Count(AppendIf(s, changed, x), d) == Count(s, d) + (if changed && x == d then 1 else 0)
  {
    assert (s + [x])[..|s|] == s;
  }

  function Rank(field: Field): nat {
    match field
    case Whole => 0
    case Available => 1
    case Degraded => 2
    case Progressing => 3
    case Version => 4
    case Conditions => 5
  }

  ghost function One(b: bool): nat {
    if b then 1 else 0
  }

  /** The entry belongs in the diff and is for one of the first fields. */
  ghost predicate BelongsUpTo(d: OperatorChange, b: OperatorSnapshot, a: OperatorSnapshot, last: Field) {
    d.changeType == Modified && Rank(d.field) <= Rank(last) && Belongs(d, Some(b), Some(a))
  }

  lemma FlipsIff(d: OperatorChange, field: Field, b: bool, a: bool)
    ensures b != a && Change(d.name, field, Bool(b), Bool(a)) == d <==>
      d.changeType == Modified && d.field == field && Flips(b, a, d.before, d.after)
  {
  }

  lemma AvailableIff(b: OperatorSnapshot, a: OperatorSnapshot, d: OperatorChange)
    ensures BelongsUpTo(d, b, a, Available) <==>
      d.changeType == Modified && d.field == Available && Flips(b.available, a.available, d.before, d.after)
  {
  }

  lemma {:induction false} CountAvailable(b: OperatorSnapshot, a: OperatorSnapshot, d: OperatorChange)
    ensures Count(AvailableDiff(d.name, b, a), d) == One(BelongsUpTo(d, b, a, Available))
  {
    var x := Change(d.name, Available, Bool(b.available), Bool(a.available));
    CountAppendIf([], b.available != a.available, x, d);
    FlipsIff(d, Available, b.available, a.available);
    AvailableIff(b, a, d);
    assert Count([], d) == 0;
  }

  lemma {:induction false} CountDegraded(b: OperatorSnapshot, a: OperatorSnapshot, d: OperatorChange)
    ensures Count(UpToDegraded(d.name, b, a), d) == One(BelongsUpTo(d, b, a, Degraded))
  {
    CountAvailable(b, a, d);
    CountAppendIf(AvailableDiff(d.name, b, a), b.degraded != a.degraded,
                  Change(d.name, Degraded, Bool(b.degraded), Bool(a.degraded)), d);
    FlipsIff(d, Degraded, b.degraded, a.degraded);
  }

  lemma {:induction false} CountProgressing(b: OperatorSnapshot, a: OperatorSnapshot, d: OperatorChange)
    ensures Count(UpToProgressing(d.name, b, a), d) == One(BelongsUpTo(d, b, a, Progressing))
  {
    CountDegraded(b, a, d);
    CountAppendIf(UpToDegraded(d.name, b, a), b.progressing != a.progressing,
                  Change(d.name, Progressing, Bool(b.progressing), Bool(a.progressing)), d);
    FlipsIff(d, Progressing, b.progressing, a.progressing);
  }

  lemma VersionIff(b: OperatorSnapshot, a: OperatorSnapshot, d: OperatorChange)
    ensures b.version != a.version && Change(d.name, Version, b.version, a.version) == d <==>
      BelongsUpTo(d, b, a, Version) && !BelongsUpTo(d, b, a, Progressing)
    ensures BelongsUpTo(d, b, a, Progressing) ==> BelongsUpTo(d, b, a, Version)
  {
  }

  lemma {:induction false} CountVersion(b: OperatorSnapshot, a: OperatorSnapshot, d: OperatorChange)
    ensures Count(UpToVersion(d.name, b, a), d) == One(BelongsUpTo(d, b, a, Version))
  {
    CountProgressing(b, a, d);
    CountAppendIf(UpToProgressing(d.name, b, a), b.version != a.version, Change(d.name, Version, b.version, a.version), d);
    VersionIff(b, a, d);
  }

  lemma ConditionsIff(b: OperatorSnapshot, a: OperatorSnapshot, d: OperatorChange)
    ensures b.conditions != a.conditions && Change(d.name, Conditions, Join(b.conditions), Join(a.conditions)) == d <==>
      BelongsUpTo(d, b, a, Conditions) && !BelongsUpTo(d, b, a, Version)
    ensures BelongsUpTo(d, b, a, Version) ==> BelongsUpTo(d, b, a, Conditions)
  {
  }

  lemma {:induction false} CountFields(b: OperatorSnapshot, a: OperatorSnapshot, d: OperatorChange)
    ensures Count(FieldDiffs(d.name, b, a), d) == One(BelongsUpTo(d, b, a, Conditions))
  {
    CountVersion(b, a, d);
    CountAppendIf(UpToVersion(d.name, b, a), b.conditions != a.conditions,
                  Change(d.name, Conditions, Join(b.conditions), Join(a.conditions)), d);
    ConditionsIff(b, a, d);
  }

  lemma AllFields(b: OperatorSnapshot, a: OperatorSnapshot, d: OperatorChange)
    ensures Belongs(d, Some(b), Some(a)) <==> BelongsUpTo(d, b, a, Conditions)
  {
  }

  lemma AddedIff(a: OperatorSnapshot, d: OperatorChange)
    ensures Belongs(d, None, Some(a)) <==> OperatorChange(d.name, Added, Whole, "", FormatOperatorStatus(a)) == d
  {
  }

  lemma RemovedIff(b: OperatorSnapshot, d: OperatorChange)
    ensures Belongs(d, Some(b), None) <==> OperatorChange(d.name, Removed, Whole, FormatOperatorStatus(b), "") == d
  {
  }

  lemma {:induction false} CountDiffs(b: Option<OperatorSnapshot>, a: Option<OperatorSnapshot>, d: OperatorChange)
    ensures Count(DiffsOf(d.name, b, a), d) == One(Belongs(d, b, a))
  {
    match (b, a)
    case (None, None) =>
    case (None, Some(x)) =>
      AddedIff(x, d);
      CountSingle(OperatorChange(d.name, Added, Whole, "", FormatOperatorStatus(x)), d);
    case (Some(x), None) =>
      RemovedIff(x, d);
      CountSingle(OperatorChange(d.name, Removed, Whole, FormatOperatorStatus(x), ""), d);
    case (Some(x), Some(y)) =>
      AllFields(x, y, d);
      CountFields(x, y, d);
  }

  lemma {:induction false} CountSingle(x: OperatorChange, d: OperatorChange)
    ensures Count([x], d) == One(x == d)
  {
    assert [x][..0] == [];
  }

  /** The diff holds every entry that belongs in it once, with the old value before and the new one after, and no other. */
  lemma {:induction false} DiffHolds(diffs: seq<OperatorChange>, before: map<string, OperatorSnapshot>,
                                     after: map<string, OperatorSnapshot>, d: OperatorChange)
    requires DiffOf(diffs, before, after)
    ensures Count(diffs, d) == One(Belongs(d, At(before, d.name), At(after, d.name)))
  {
    SelectCount(diffs, (x: OperatorChange) => x.name == d.name, d);
    CountDiffs(At(before, d.name), At(after, d.name), d);
    assert Named(diffs, d.name) == DiffsOf(d.name, At(before, d.name), At(after, d.name));
  }

  /** The entries of one operator come in the order available, degraded, progressing, version, conditions. */
  lemma FieldsInOrder(diffs: seq<OperatorChange>, before: map<string, OperatorSnapshot>, after: map<string, OperatorSnapshot>,
                      name: string)
    requires DiffOf(diffs, before, after)
    ensures var s := Named(diffs, name); forall i, j | 0 <= i < j < |s| :: Rank(s[i].field) < Rank(s[j].field)
  {
    assert Named(diffs, name) == DiffsOf(name, At(before, name), At(after, name));
  }

  lemma NoDiffsIff(name: string, b: Option<OperatorSnapshot>, a: Option<OperatorSnapshot>)
    ensures DiffsOf(name, b, a) == [] <==>
      (b.None? && a.None?) || (b.Some? && a.Some? && b.value.(name := "") == a.value.(name := ""))
  {
  }

  lemma {:induction false} NamedCovers(diffs: seq<OperatorChange>, name: string)
    ensures Named(diffs, name) != [] <==> exists i | 0 <= i < |diffs| :: diffs[i].name == name
  {
    if diffs != [] {
      var front := diffs[..|diffs| - 1];
      NamedCovers(front, name);
      assert forall i | 0 <= i < |front| :: front[i] == diffs[i];
    }
  }

  /** The diff is empty if and only if the two snapshots hold the same operators with the same fields. */
  lemma EmptyDiffIff(diffs: seq<OperatorChange>, before: map<string, OperatorSnapshot>, after: map<string, OperatorSnapshot>)
    requires DiffOf(diffs, before, after)
    ensures diffs == [] <==> SameOperators(before, after)
  {
    forall name
      ensures Named(diffs, name) == [] <==>
        (name !in before && name !in after) ||
        (name in before && name in after && before[name].(name := "") == after[name].(name := ""))
    {
      NoDiffsIff(name, At(before, name), At(after, name));
    }
    if SameOperators(before, after) && diffs != [] {
      NamedCovers(diffs, diffs[0].name);
      assert false;
    }
  }

  /** The names that differ, or that only one snapshot holds. */
  ghost function ChangedNames(before: map<string, OperatorSnapshot>, after: map<string, OperatorSnapshot>): set<string> {
    set name | name in before.Keys + after.Keys &&
      !(name in before && name in after && before[name].(name := "") == after[name].(name := ""))
  }

  /** `OperatorsChanged`: the number of distinct names in the diff. */
  method CountChanged(diffs: seq<OperatorChange>) returns (n: nat)
    ensures n == |set d | d in diffs :: d.name|
  {
    var changed := {};
    for i := 0 to |diffs|
      invariant changed == set d | d in diffs[..i] :: d.name
    {
      assert diffs[..i + 1] == diffs[..i] + [diffs[i]];
      changed := changed + {diffs[i].name};
    }
    assert diffs[..|diffs|] == diffs;
    n := |changed|;
  }

  /** The distinct names in the diff are exactly the changed operators, however many fields of each changed. */
  lemma CountChangedMeans(diffs: seq<OperatorChange>, before: map<string, OperatorSnapshot>, after: map<string, OperatorSnapshot>)
    requires DiffOf(diffs, before, after)
    ensures (set d | d in diffs :: d.name) == ChangedNames(before, after)
  {
    var names := set d | d in diffs :: d.name;
    forall name ensures name in names <==> name in ChangedNames(before, after) {
      NamedCovers(diffs, name);
      NoDiffsIff(name, At(before, name), At(after, name));
      assert Named(diffs, name) == DiffsOf(name, At(before, name), At(after, name));
    }
  }

  // ----- Conservation -----

  function OfType(diffs: seq<OperatorChange>, t: ChangeType): seq<OperatorChange> {
    Select(diffs, (d: OperatorChange) => d.changeType == t)
  }

  /** Added entries minus removed entries is the change in the number of distinct names. */
  lemma AddedMinusRemoved(diffs: seq<OperatorChange>, before: map<string, OperatorSnapshot>, after: map<string, OperatorSnapshot>)
    requires DiffOf(diffs, before, after)
    ensures |OfType(diffs, Added)| == |after.Keys - before.Keys|
    ensures |OfType(diffs, Removed)| == |before.Keys - after.Keys|
    ensures |OfType(diffs, Added)| - |OfType(diffs, Removed)| == |after.Keys| - |before.Keys|
  {
    OncePerName(diffs, Added, after.Keys - before.Keys, before, after);
    OncePerName(diffs, Removed, before.Keys - after.Keys, before, after);
    SplitSize(after.Keys, before.Keys);
    SplitSize(before.Keys, after.Keys);
    assert after.Keys * before.Keys == before.Keys * after.Keys;
  }

  lemma SplitSize<T>(a: set<T>, b: set<T>)
    ensures |a| == |a - b| + |a * b|
  {
    assert a == (a - b) + (a * b);
  }

  /** How many entries of the type carry each name: one for the names of the set, none for the others. */
  lemma OncePerName(diffs: seq<OperatorChange>, t: ChangeType, names: set<string>,
                    before: map<string, OperatorSnapshot>, after: map<string, OperatorSnapshot>)
    requires DiffOf(diffs, before, after)
    requires (t == Added && names == after.Keys - before.Keys) || (t == Removed && names == before.Keys - after.Keys)
    ensures |OfType(diffs, t)| == |names|
  {
    var typed := OfType(diffs, t);
    forall name ensures |Named(typed, name)| == if name in names then 1 else 0 {
      SelectSwap(diffs, t, name);
      assert Named(diffs, name) == DiffsOf(name, At(before, name), At(after, name));
      TypedDiffs(name, At(before, name), At(after, name), t);
    }
    CountByName(typed, names);
  }

  lemma SelectSwap(diffs: seq<OperatorChange>, t: ChangeType, name: string)
    ensures Named(OfType(diffs, t), name) == OfType(Named(diffs, name), t)
  {
    SelectTwice(diffs, (d: OperatorChange) => d.changeType == t, (d: OperatorChange) => d.name == name,
                (d: OperatorChange) => d.changeType == t && d.name == name);
    SelectTwice(diffs, (d: OperatorChange) => d.name == name, (d: OperatorChange) => d.changeType == t,
                (d: OperatorChange) => d.changeType == t && d.name == name);
  }

  lemma TypedDiffs(name: string, b: Option<OperatorSnapshot>, a: Option<OperatorSnapshot>, t: ChangeType)
    requires t == Added || t == Removed
    ensures |OfType(DiffsOf(name, b, a), t)| ==
      if (t == Added && b.None? && a.Some?) || (t == Removed && b.Some? && a.None?) then 1 else 0
  {
    var s := DiffsOf(name, b, a);
    if b.Some? && a.Some? {
      NoneOfType(s, t);
    } else if s != [] {
      SingleOfType(s[0], t);
    }
  }

  lemma SingleOfType(d: OperatorChange, t: ChangeType)
    ensures OfType([d], t) == if d.changeType == t then [d] else []
  {
    SelectSingle(d, (x: OperatorChange) => x.changeType == t);
  }

  lemma {:induction false} NoneOfType(s: seq<OperatorChange>, t: ChangeType)
    requires forall d | d in s :: d.changeType != t
    ensures OfType(s, t) == []
  {
    if s != [] {
      NoneOfType(s[..|s| - 1], t);
      assert s[|s| - 1] in s;
    }
  }

  /** A list in which each name of a set occurs once, and no other name, is as long as the set is large. */
  lemma {:induction false} CountByName(s: seq<OperatorChange>, names: set<string>)
    requires forall name :: |Named(s, name)| == if name in names then 1 else 0
    ensures |s| == |names|
  {
    if s == [] {
      assert forall name | name in names :: |Named(s, name)| == 1;
    } else {
      var front, last := s[..|s| - 1], s[|s| - 1];
      forall name ensures |Named(s, name)| == |Named(front, name)| + (if name == last.name then 1 else 0) {
      }
      assert |Named(s, last.name)| >= 1;
      CountByName(front, names - {last.name});
    }
  }

  // ----- Reversal -----

  function ReverseChange(d: OperatorChange): OperatorChange {
    OperatorChange(
      d.name,
      match d.changeType case Added => Removed case Removed => Added case Modified => Modified,
      d.field, d.after, d.before)
  }

  function ReverseAll(s: seq<OperatorChange>): seq<OperatorChange> {
    if s == [] then [] else ReverseAll(s[..|s| - 1]) + [ReverseChange(s[|s| - 1])]
  }

  lemma {:induction false} ReverseConcat(a: seq<OperatorChange>, b: seq<OperatorChange>)
    ensures ReverseAll(a + b) == ReverseAll(a) + ReverseAll(b)
  {
    if b == [] {
      assert a + b == a;
    } else {
      ReverseConcat(a, b[..|b| - 1]);
      assert (a + b)[..|a + b| - 1] == a + b[..|b| - 1];
    }
  }

  lemma ReverseSingle(d: OperatorChange)
    ensures ReverseAll([d]) == [ReverseChange(d)]
  {
    assert [d][..0] == [];
  }

  lemma {:induction false} AppendIfReversed(s: seq<OperatorChange>, changed: bool, d: OperatorChange)
    ensures ReverseAll(AppendIf(s, changed, d)) == AppendIf(ReverseAll(s), changed, ReverseChange(d))
  {
    ReverseConcat(s, [d]);
    ReverseSingle(d);
  }

  lemma AvailableReversed(name: string, b: OperatorSnapshot, a: OperatorSnapshot)
    ensures ReverseAll(AvailableDiff(name, b, a)) == AvailableDiff(name, a, b)
  {
    AppendIfReversed([], b.available != a.available, Change(name, Available, Bool(b.available), Bool(a.available)));
  }

  lemma DegradedReversed(name: string, b: OperatorSnapshot, a: OperatorSnapshot)
    ensures ReverseAll(UpToDegraded(name, b, a)) == UpToDegraded(name, a, b)
  {
    AvailableReversed(name, b, a);
    AppendIfReversed(AvailableDiff(name, b, a), b.degraded != a.degraded,
                     Change(name, Degraded, Bool(b.degraded), Bool(a.degraded)));
  }

  lemma ProgressingReversed(name: string, b: OperatorSnapshot, a: OperatorSnapshot)
    ensures ReverseAll(UpToProgressing(name, b, a)) == UpToProgressing(name, a, b)
  {
    DegradedReversed(name, b, a);
    AppendIfReversed(UpToDegraded(name, b, a), b.progressing != a.progressing,
                     Change(name, Progressing, Bool(b.progressing), Bool(a.progressing)));
  }

  lemma VersionReversed(name: string, b: OperatorSnapshot, a: OperatorSnapshot)
    ensures ReverseAll(UpToVersion(name, b, a)) == UpToVersion(name, a, b)
  {
    ProgressingReversed(name, b, a);
    AppendIfReversed(UpToProgressing(name, b, a), b.version != a.version, Change(name, Version, b.version, a.version));
  }

  lemma FieldsReversed(name: string, b: OperatorSnapshot, a: OperatorSnapshot)
    ensures ReverseAll(FieldDiffs(name, b, a)) == FieldDiffs(name, a, b)
  {
    VersionReversed(name, b, a);
    AppendIfReversed(UpToVersion(name, b, a), b.conditions != a.conditions,
                     Change(name, Conditions, Join(b.conditions), Join(a.conditions)));
  }

  lemma DiffsReversed(name: string, b: Option<OperatorSnapshot>, a: Option<OperatorSnapshot>)
    ensures ReverseAll(DiffsOf(name, b, a)) == DiffsOf(name, a, b)
  {
    if b.Some? && a.Some? {
      FieldsReversed(name, b.value, a.value);
    } else if b.Some? || a.Some? {
      ReverseSingle(DiffsOf(name, b, a)[0]);
    }
  }

  lemma {:induction false} NamedReversed(diffs: seq<OperatorChange>, name: string)
    ensures Named(ReverseAll(diffs), name) == ReverseAll(Named(diffs, name))
  {
    if diffs != [] {
      var front, last := diffs[..|diffs| - 1], diffs[|diffs| - 1];
      NamedReversed(front, name);
      SelectConcat(ReverseAll(front), [ReverseChange(last)], (d: OperatorChange) => d.name == name);
      NamedAll([ReverseChange(last)], name, last.name);
      ReverseConcat(Named(front, name), [last]);
      ReverseSingle(last);
    }
  }

  /**
   Swapping the snapshots reverses the diff: turning every entry of one round exchanges added with removed and before
   with after, and yields a diff of the swapped snapshots, with the same entries as any diff of them.
   */
  lemma {:induction false} SwappedDiff(diffs: seq<OperatorChange>, swapped: seq<OperatorChange>,
                                       before: map<string, OperatorSnapshot>, after: map<string, OperatorSnapshot>,
                                       d: OperatorChange)
    requires DiffOf(diffs, before, after) && DiffOf(swapped, after, before)
    ensures DiffOf(ReverseAll(diffs), after, before)
    ensures Count(ReverseAll(diffs), d) == Count(swapped, d)
  {
    forall name ensures Named(ReverseAll(diffs), name) == DiffsOf(name, At(after, name), At(before, name)) {
      NamedReversed(diffs, name);
      DiffsReversed(name, At(before, name), At(after, name));
      assert Named(diffs, name) == DiffsOf(name, At(before, name), At(after, name));
    }
    SelectCount(ReverseAll(diffs), (x: OperatorChange) => x.name == d.name, d);
    SelectCount(swapped, (x: OperatorChange) => x.name == d.name, d);
    assert Named(swapped, d.name) == Named(ReverseAll(diffs), d.name);
  }
}
