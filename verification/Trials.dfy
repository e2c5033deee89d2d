/** The module lock: locked modules and their trials, and the operations that plan its next content. */
module Trials {
  import opened Prelude

  datatype LockedItem = LockedItem(id: string, version: string, source: string, sha256: string,
                                   enabled: Option<bool>, policy: Option<string>, location: Option<string>)

  datatype TrialState = Proposed | Approved | InTrial | Promoted | Rejected | RolledBack

  datatype TrialResult = TrialResult(taskId: string, evidence: string, beneficial: bool, overhead: int)

  datatype Trial = Trial(
    moduleId: string,
    state: TrialState,
    remaining: int,
    matching: int,
    results: seq<TrialResult>,
    previous: Option<LockedItem>,
    budget: int,
    history: seq<TrialState>)

  datatype Lock = Lock(modules: seq<LockedItem>, trials: seq<Trial>)

  /** A module manifest as the registry resolves it. */
  datatype Resolved = Resolved(id: string, version: string, source: string, sha256: string, policy: string,
                               location: Option<string>, runtimeSeconds: real)

  datatype TrialError =
    | NoMatchingTask | AlreadyActive | UnknownModule | EmptyResult | NegativeOverhead | NoActiveTrial
    | AllResultsIn | DuplicateTask | TasksRemaining | NoBenefit | NotLocked | NoTrial | TrialClosed

  // ---- Lists keyed by module ----

  predicate LessEq(a: string, b: string) {
    a == "" || (b != "" && (a[0] < b[0] || (a[0] == b[0] && LessEq(a[1..], b[1..]))))
  }

  function Without(items: seq<LockedItem>, id: string): seq<LockedItem> {
    if items == [] then []
    else Without(items[..|items| - 1], id) + (if items[|items| - 1].id == id then [] else [items[|items| - 1]])
  }

  function Insert(items: seq<LockedItem>, x: LockedItem): seq<LockedItem> {
    if items == [] || !LessEq(items[0].id, x.id) then [x] + items else [items[0]] + Insert(items[1..], x)
  }

  /** A stable sort by module id. */
  function SortById(items: seq<LockedItem>): seq<LockedItem> {
    if items == [] then [] else Insert(SortById(items[..|items| - 1]), items[|items| - 1])
  }

  /** `_upsert`. */
  function Upsert(items: seq<LockedItem>, x: LockedItem): seq<LockedItem> {
    SortById(Without(items, x.id) + [x])
  }

  /** The entry of a module: the first with its id. */
  function Entry(items: seq<LockedItem>, id: string): Option<LockedItem> {
    if items == [] then None else if items[0].id == id then Some(items[0]) else Entry(items[1..], id)
  }

  function WithEnabled(items: seq<LockedItem>, id: string, enabled: bool): seq<LockedItem> {
    if items == [] then []
    else if items[0].id == id then [items[0].(enabled := Some(enabled))] + items[1..]
    else [items[0]] + WithEnabled(items[1..], id, enabled)
  }

  // ---- Trials of a module ----

  predicate Open(t: Trial) { t.state in {Proposed, Approved, InTrial, Promoted} }

  /** The last trial of the module that is in state `trial`, searching backwards. */
  function ActiveTrial(trials: seq<Trial>, id: string): (i: Option<nat>)
    ensures i.Some? ==> i.value < |trials| && trials[i.value].moduleId == id && trials[i.value].state.InTrial?
    ensures i.None? ==> forall k :: 0 <= k < |trials| && trials[k].moduleId == id ==> !trials[k].state.InTrial?
  {
    if trials == [] then None
    else if trials[|trials| - 1].moduleId == id && trials[|trials| - 1].state.InTrial? then Some(|trials| - 1)
    else ActiveTrial(trials[..|trials| - 1], id)
  }

  function LatestTrial(trials: seq<Trial>, id: string): (i: Option<nat>)
    ensures i.Some? ==> i.value < |trials| && trials[i.value].moduleId == id
    ensures i.Some? ==> forall k :: i.value < k < |trials| ==> trials[k].moduleId != id
    ensures i.None? ==> forall k :: 0 <= k < |trials| ==> trials[k].moduleId != id
  {
    if trials == [] then None
    else if trials[|trials| - 1].moduleId == id then Some(|trials| - 1)
    else LatestTrial(trials[..|trials| - 1], id)
  }

  function Spent(results: seq<TrialResult>): int {
    if results == [] then 0 else Spent(results[..|results| - 1]) + results[|results| - 1].overhead
  }

  function Beneficial(results: seq<TrialResult>): nat {
    if results == [] then 0
    else Beneficial(results[..|results| - 1]) + if results[|results| - 1].beneficial then 1 else 0
  }

  // ---- Operations on the loaded document ----

  function ItemFor(m: Resolved, policy: string): LockedItem {
    LockedItem(m.id, m.version, m.source, m.sha256, Some(true), Some(policy), m.location)
  }

  /** The runtime a trial may add in all, in whole milliseconds. */
  function Budget(runtimeSeconds: real, matching: int): int {
    (runtimeSeconds * 1000.0 * (matching as real)).Floor
  }

  function NewTrial(d: Lock, id: string, matching: int, m: Resolved): Trial {
    Trial(id, InTrial, matching, matching, [], Entry(d.modules, id),
          Budget(m.runtimeSeconds, matching), [Proposed, Approved, InTrial])
  }

  /** `plan_trial`. */
  function PlanTrial(d: Lock, id: string, matching: int, resolved: Option<Resolved>): Result<Lock, TrialError> {
    if matching < 1 then Err(NoMatchingTask)
    else if exists k :: 0 <= k < |d.trials| && d.trials[k].moduleId == id && Open(d.trials[k]) then Err(AlreadyActive)
    else if resolved.None? then Err(UnknownModule)
    else Ok(Lock(Upsert(d.modules, ItemFor(resolved.value, resolved.value.policy)),
                 d.trials + [NewTrial(d, id, matching, resolved.value)]))
  }

  function WithResult(t: Trial, r: TrialResult): Trial {
    var results := t.results + [r];
    var counted := t.(results := results, remaining := t.remaining - 1);
    if Spent(results) > t.budget then counted.(state := Rejected, history := t.history + [Rejected]) else counted
  }

  /** `plan_record_trial_result`. */
  function PlanResult(d: Lock, id: string, r: TrialResult): Result<Lock, TrialError> {
    if r.taskId == "" || r.evidence == "" then Err(EmptyResult)
    else if r.overhead < 0 then Err(NegativeOverhead)
    else
      var i := ActiveTrial(d.trials, id);
      if i.None? then Err(NoActiveTrial)
      else
        var t := d.trials[i.value];
        if t.remaining == 0 then Err(AllResultsIn)
        else if exists k :: 0 <= k < |t.results| && t.results[k].taskId == r.taskId then Err(DuplicateTask)
        else Ok(d.(trials := d.trials[i.value := WithResult(t, r)]))
  }

  /** `plan_promote`. */
  function PlanPromote(d: Lock, id: string): Result<Lock, TrialError> {
    var i := ActiveTrial(d.trials, id);
    if i.None? then Err(NoActiveTrial)
    else
      var t := d.trials[i.value];
      if t.remaining != 0 then Err(TasksRemaining)
      else if Beneficial(t.results) as real <= |t.results| as real / 2.0 then Err(NoBenefit)
      else if Entry(d.modules, id).None? then Err(NotLocked)
      else Ok(Lock(WithEnabled(d.modules, id, true),
                   d.trials[i.value := t.(state := Promoted, history := t.history + [Promoted])]))
  }

  /** `plan_rollback`. */
  function PlanRollback(d: Lock, id: string): Result<Lock, TrialError> {
    var i := LatestTrial(d.trials, id);
    if i.None? then Err(NoTrial)
    else
      var t := d.trials[i.value];
      if t.state in {Rejected, RolledBack} then Err(TrialClosed)
      else Ok(Lock(Without(d.modules, id) + (if t.previous.Some? then [t.previous.value] else []),
                   d.trials[i.value := t.(state := RolledBack, history := t.history + [RolledBack])]))
  }

  /** `plan_enable` and `plan_disable`. */
  function PlanEnable(d: Lock, resolved: Option<Resolved>, policy: Option<string>): Result<Lock, TrialError> {
    if resolved.None? then Err(UnknownModule)
    else
      var m := resolved.value;
      Ok(d.(modules := Upsert(d.modules, ItemFor(m, if policy.Some? then policy.value else m.policy))))
  }

  function PlanDisable(d: Lock, id: string): Result<Lock, TrialError> {
    if Entry(d.modules, id).None? then Err(NotLocked) else Ok(d.(modules := WithEnabled(d.modules, id, false)))
  }

  // ---- Entries under the list operations ----

  predicate UniqueIds(items: seq<LockedItem>) {
    forall i, j :: 0 <= i < j < |items| ==> items[i].id != items[j].id
  }

  predicate Sorted(items: seq<LockedItem>) {
    forall i :: 0 < i < |items| ==> LessEq(items[i - 1].id, items[i].id)
  }

  lemma {:induction false} LessEqTotal(a: string, b: string)
    ensures LessEq(a, b) || LessEq(b, a)
  {
    if a != "" && b != "" && a[0] == b[0] { LessEqTotal(a[1..], b[1..]); }
  }

  lemma {:induction false} InsertKeeps(items: seq<LockedItem>, x: LockedItem)
    requires Sorted(items) && UniqueIds(items) && forall y :: y in items ==> y.id != x.id
    ensures Sorted(Insert(items, x)) && UniqueIds(Insert(items, x))
    ensures forall y :: y in Insert(items, x) <==> y in items || y == x
    ensures Insert(items, x)[0] == x || (items != [] && Insert(items, x)[0] == items[0])
  {
    hide LessEq;
    if items != [] { LessEqTotal(items[0].id, x.id); }
    var r := Insert(items, x);
    if items == [] || !LessEq(items[0].id, x.id) {
      assert r[0] == x && forall i :: 0 < i < |r| ==> r[i] == items[i - 1] && r[i] in items;
    } else {
      var rest := Insert(items[1..], x);
      assert items == [items[0]] + items[1..];
      InsertKeeps(items[1..], x);
      forall i | 0 < i < |r| ensures r[i] == rest[i - 1] && r[i].id != items[0].id {
        assert rest[i - 1] in rest;
      }
      forall i, j | 0 <= i < j < |r| ensures r[i].id != r[j].id {
        if i > 0 { assert r[i] == rest[i - 1]; }
      }
    }
  }

  /** Sorting orders the entries and loses none. */
  lemma {:induction false} SortKeeps(items: seq<LockedItem>)
    requires UniqueIds(items)
    ensures Sorted(SortById(items)) && UniqueIds(SortById(items))
    ensures forall y :: y in SortById(items) <==> y in items
  {
    if items != [] {
      var n := |items| - 1;
      SortKeeps(items[..n]);
      InsertKeeps(SortById(items[..n]), items[n]);
      assert items == items[..n] + [items[n]];
    }
  }

  lemma {:induction false} WithoutMeaning(items: seq<LockedItem>, id: string)
    requires UniqueIds(items)
    ensures UniqueIds(Without(items, id))
    ensures forall x :: x in Without(items, id) <==> x in items && x.id != id
  {
    if items != [] {
      var n := |items| - 1;
      WithoutMeaning(items[..n], id);
      var w := Without(items[..n], id);
      assert items == items[..n] + [items[n]];
      forall x | x in w ensures x.id != items[n].id { assert x in items[..n]; }
      forall i, j | 0 <= i < j < |Without(items, id)| ensures Without(items, id)[i].id != Without(items, id)[j].id {
        assert Without(items, id)[i] == w[i];
        if j == |w| { assert w[i] in w; }
      }
    }
  }

  lemma {:induction false} EntryMeaning(items: seq<LockedItem>, id: string)
    ensures Entry(items, id).Some? ==> Entry(items, id).value in items && Entry(items, id).value.id == id
    ensures Entry(items, id).None? <==> forall x :: x in items ==> x.id != id
  {
    if items != [] { EntryMeaning(items[1..], id); assert items == [items[0]] + items[1..]; }
  }

  /** With unique ids, the entry of a module is the one item with its id. */
  lemma EntryIs(items: seq<LockedItem>, x: LockedItem)
    requires UniqueIds(items) && x in items
    ensures Entry(items, x.id) == Some(x)
  {
    EntryMeaning(items, x.id);
    var e := Entry(items, x.id).value;
    var i :| 0 <= i < |items| && items[i] == x;
    var j :| 0 <= j < |items| && items[j] == e;
    assert i == j;
  }

  /** Two lists with unique ids and the same items of a module agree on its entry. */
  lemma SameEntry(a: seq<LockedItem>, b: seq<LockedItem>, id: string)
    requires UniqueIds(a) && UniqueIds(b)
    requires forall x: LockedItem :: x.id == id ==> (x in a <==> x in b)
    ensures Entry(a, id) == Entry(b, id)
  {
    EntryMeaning(a, id);
    EntryMeaning(b, id);
    if Entry(a, id).Some? { EntryIs(b, Entry(a, id).value); }
  }

  /** `_upsert` sets one entry, keeps all others and leaves the list sorted. */
  lemma UpsertMeaning(items: seq<LockedItem>, x: LockedItem)
    requires UniqueIds(items)
    ensures UniqueIds(Upsert(items, x)) && Sorted(Upsert(items, x))
    ensures Entry(Upsert(items, x), x.id) == Some(x)
    ensures forall id :: id != x.id ==> Entry(Upsert(items, x), id) == Entry(items, id)
  {
    hide SortById, Without, Sorted, Entry;
    WithoutMeaning(items, x.id);
    var joined := Without(items, x.id) + [x];
    assert UniqueIds(joined) by {
      forall i, j | 0 <= i < j < |joined| ensures joined[i].id != joined[j].id {
        if j == |joined| - 1 { assert joined[i] in Without(items, x.id); }
      }
    }
    SortKeeps(joined);
    EntryIs(SortById(joined), x);
    forall id | id != x.id ensures Entry(Upsert(items, x), id) == Entry(items, id) {
      SameEntry(Upsert(items, x), items, id);
    }
  }

  lemma {:induction false} WithEnabledAt(items: seq<LockedItem>, id: string, enabled: bool, k: nat)
    requires UniqueIds(items) && k < |items|
    ensures |WithEnabled(items, id, enabled)| == |items|
    ensures WithEnabled(items, id, enabled)[k] == if items[k].id == id then items[k].(enabled := Some(enabled))
      else items[k]
  {
    if items[0].id != id {
      if k == 0 {
        if |items| > 1 { WithEnabledAt(items[1..], id, enabled, 0); }
      } else {
        WithEnabledAt(items[1..], id, enabled, k - 1);
      }
    }
  }

  lemma SameIdsStayUnique(a: seq<LockedItem>, b: seq<LockedItem>)
    requires UniqueIds(a) && |a| == |b| && forall k :: 0 <= k < |a| ==> b[k].id == a[k].id
    ensures UniqueIds(b)
  {
  }

  lemma WithEnabledMeaning(items: seq<LockedItem>, id: string, enabled: bool)
    requires UniqueIds(items)
    ensures UniqueIds(WithEnabled(items, id, enabled))
    ensures forall other :: other != id ==> Entry(WithEnabled(items, id, enabled), other) == Entry(items, other)
    ensures Entry(WithEnabled(items, id, enabled), id) ==
            if Entry(items, id).None? then None else Some(Entry(items, id).value.(enabled := Some(enabled)))
  {
    var r := WithEnabled(items, id, enabled);
    assert items == [] ==> r == [];
    hide WithEnabled, Entry, UniqueIds;
    if items != [] { WithEnabledAt(items, id, enabled, 0); }
    forall k | 0 <= k < |items|
      ensures r[k] == if items[k].id == id then items[k].(enabled := Some(enabled)) else items[k]
    {
      WithEnabledAt(items, id, enabled, k);
    }
    SameIdsStayUnique(items, r);
    forall x: LockedItem | x.id != id ensures x in items <==> x in r {
      if x in items { var k :| 0 <= k < |items| && items[k] == x; assert r[k] == x; }
      if x in r { var k :| 0 <= k < |items| && r[k] == x; assert items[k] == x; }
    }
    forall other | other != id ensures Entry(r, other) == Entry(items, other) { SameEntry(r, items, other); }
    EntryMeaning(items, id);
    EntryMeaning(r, id);
    if Entry(items, id).Some? {
      var k :| 0 <= k < |items| && items[k] == Entry(items, id).value;
      EntryIs(r, r[k]);
    } else {
      forall x | x in r ensures x.id != id { var k :| 0 <= k < |r| && r[k] == x; assert items[k] in items; }
    }
  }

  /** A rollback gives the module its pre-trial entry and leaves all others alone. */
  lemma RollbackMeaning(items: seq<LockedItem>, id: string, previous: Option<LockedItem>)
    requires UniqueIds(items) && (previous.Some? ==> previous.value.id == id)
    ensures var after := Without(items, id) + (if previous.Some? then [previous.value] else []);
      && UniqueIds(after) && Entry(after, id) == previous
      && forall other :: other != id ==> Entry(after, other) == Entry(items, other)
  {
    hide Without, Entry;
    WithoutMeaning(items, id);
    var kept := Without(items, id);
    var after := kept + (if previous.Some? then [previous.value] else []);
    forall i, j | 0 <= i < j < |after| ensures after[i].id != after[j].id {
      assert after[i] == kept[i];
      if j == |kept| { assert kept[i] in kept; }
    }
    EntryMeaning(after, id);
    if previous.Some? { EntryIs(after, previous.value); }
    forall other | other != id ensures Entry(after, other) == Entry(items, other) {
      SameEntry(after, items, other);
    }
  }
}
