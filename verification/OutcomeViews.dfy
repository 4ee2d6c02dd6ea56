// Which outcomes the user has seen, and where that puts a task in the list
// (web/src/state/task-outcome-views.ts).
module OutcomeViews {
  import opened Basics
  import opened Lists

  const MAX_TASK_OUTCOME_VIEWS: nat := 512

  datatype State = NeedsInput | Failed | Completed | Other(name: string)

  // A row of the list. Its detail stands for its question, error and completion; in a stale
  // row those belong to an earlier state.
  datatype Task = Task(id: string, state: State, detail: string, stale: bool)

  // An outcome as it is stored: the state, and the detail where the state has one.
  datatype Outcome = Outcome(state: State, detail: string)

  datatype Entry = Entry(outcome: Outcome, viewed: bool, touchedAt: int)

  type Entries = seq<(string, Entry)>

  datatype Store = Store(
    entries: Entries,
    active: Option<string>,
    pinned: Option<string>,
    pinnedOutcome: Option<Outcome>,
    needsDecision: bool)

  function OutcomeOf(task: Task): Outcome {
    Outcome(task.state, if task.state.Other? then "" else task.detail)
  }

  predicate Shows(task: Task, outcome: Outcome) {
    if task.stale then outcome.state == task.state else outcome == OutcomeOf(task)
  }

  function Lookup(entries: Entries, id: string): Option<Entry> {
    if entries == [] then None
    else if entries[|entries| - 1].0 == id then Some(entries[|entries| - 1].1)
    else Lookup(entries[..|entries| - 1], id)
  }

  // Setting an entry leaves it where it is, or puts it last.
  function Put(entries: Entries, id: string, view: Entry): Entries {
    if entries == [] then [(id, view)]
    else if entries[|entries| - 1].0 == id then entries[..|entries| - 1] + [(id, view)]
    else Put(entries[..|entries| - 1], id, view) + [entries[|entries| - 1]]
  }

  // --- The store ---

  predicate StoredViewed(s: Store, task: Task) {
    var entry := Lookup(s.entries, task.id);
    entry.Some? && entry.value.viewed && Shows(task, entry.value.outcome)
  }

  predicate IsViewed(s: Store, task: Task) {
    s.active == Some(task.id) || StoredViewed(s, task)
  }

  predicate IsOrderingUnread(s: Store, task: Task) {
    if s.pinned == Some(task.id) && s.pinnedOutcome.Some? && Shows(task, s.pinnedOutcome.value) then true
    else if s.active == Some(task.id) then s.needsDecision && !StoredViewed(s, task)
    else !IsViewed(s, task)
  }

  predicate ShowsEntry(s: Store, task: Task) {
    var current := Lookup(s.entries, task.id);
    current.Some? && Shows(task, current.value.outcome)
  }

  function SeenOutcome(s: Store, task: Task): Outcome {
    if ShowsEntry(s, task) then Lookup(s.entries, task.id).value.outcome else OutcomeOf(task)
  }

  // One row observed, and whether that changed what is stored.
  function Observed(s: Store, task: Task, viewed: bool, now: int): (Store, bool) {
    var current, shown, outcome := Lookup(s.entries, task.id), ShowsEntry(s, task), SeenOutcome(s, task);
    var decided :=
      if s.active == Some(task.id) && viewed && s.needsDecision then
        if !shown || !current.value.viewed
        then s.(pinned := Some(task.id), pinnedOutcome := Some(outcome), needsDecision := false)
        else s.(needsDecision := false)
      else s;
    if shown && (!viewed || current.value.viewed) then (decided, false)
    else (decided.(entries := Put(s.entries, task.id, Entry(outcome, viewed, now))), true)
  }

  // The newest first, those of the same time as they stood.
  function Placed(sorted: Entries, entry: (string, Entry)): (placed: Entries)
    ensures |placed| == |sorted| + 1
  {
    if sorted == [] || sorted[|sorted| - 1].1.touchedAt >= entry.1.touchedAt then sorted + [entry]
    else Placed(sorted[..|sorted| - 1], entry) + [sorted[|sorted| - 1]]
  }

  function Newest(entries: Entries): (newest: Entries)
    ensures |newest| == |entries|
  {
    if entries == [] then [] else Placed(Newest(entries[..|entries| - 1]), entries[|entries| - 1])
  }

  function Bounded(entries: Entries): Entries {
    if |entries| <= MAX_TASK_OUTCOME_VIEWS then entries else Newest(entries)[..MAX_TASK_OUTCOME_VIEWS]
  }

  function Committed(s: Store, changed: bool): Store {
    if changed then s.(entries := Bounded(s.entries)) else s
  }

  function ObservedAll(s: Store, tasks: seq<Task>, now: int): (Store, bool) {
    if tasks == [] then (s, false)
    else
      var (before, changed), task := ObservedAll(s, tasks[..|tasks| - 1], now), tasks[|tasks| - 1];
      var (after, again) := Observed(before, task, before.active == Some(task.id) && !task.stale, now);
      (after, changed || again)
  }

  function ObserveTasks(s: Store, tasks: seq<Task>, now: int): Store {
    var (after, changed) := ObservedAll(s, tasks, now);
    Committed(after, changed)
  }

  function MarkViewed(s: Store, task: Task, now: int): Store {
    var (after, changed) := Observed(s, task, true, now);
    Committed(after, changed)
  }

  function SetActive(s: Store, id: Option<string>): Store {
    if s.active == id then s else Store(s.entries, id, None, None, id.Some?)
  }

  function ClearActive(s: Store, id: string): Store {
    if s.active != Some(id) then s else Store(s.entries, None, None, None, false)
  }

  class TaskOutcomeViewStore {
    var entries: Entries
    var activeTaskId: Option<string>
    var pinnedTaskId: Option<string>
    var pinnedOutcome: Option<Outcome>
    var activeNeedsDecision: bool

    ghost function View(): Store
      reads this
    {
      Store(entries, activeTaskId, pinnedTaskId, pinnedOutcome, activeNeedsDecision)
    }

    constructor (loaded: Entries)
      ensures View() == EMPTY.(entries := Bounded(loaded))
    {
      entries := Bounded(loaded);
      activeTaskId, pinnedTaskId, pinnedOutcome, activeNeedsDecision := None, None, None, false;
    }

    method Observe(task: Task, viewed: bool, now: int) returns (changed: bool)
      modifies this`entries, this`pinnedTaskId, this`pinnedOutcome, this`activeNeedsDecision
      ensures (View(), changed) == Observed(old(View()), task, viewed, now)
    {
      var current := Lookup(entries, task.id);
      var shown := current.Some? && Shows(task, current.value.outcome);
      var outcome := if shown then current.value.outcome else OutcomeOf(task);
      if activeTaskId == Some(task.id) && viewed && activeNeedsDecision {
        if !shown || !current.value.viewed {
          pinnedTaskId, pinnedOutcome := Some(task.id), Some(outcome);
        }
        activeNeedsDecision := false;
      }
      if shown && (!viewed || current.value.viewed) {
        return false;
      }
      entries := Put(entries, task.id, Entry(outcome, viewed, now));
      return true;
    }

    method Observes(tasks: seq<Task>, now: int)
      modifies this`entries, this`pinnedTaskId, this`pinnedOutcome, this`activeNeedsDecision
      ensures View() == ObserveTasks(old(View()), tasks, now)
    {
      var changed := false;
      for i := 0 to |tasks|
        invariant (View(), changed) == ObservedAll(old(View()), tasks[..i], now)
      {
        var again := Observe(tasks[i], activeTaskId == Some(tasks[i].id) && !tasks[i].stale, now);
        changed := changed || again;
        assert tasks[..i + 1][..i] == tasks[..i];
      }
      assert tasks[..|tasks|] == tasks;
      if changed {
        entries := Bounded(entries);
      }
    }

    method Marks(task: Task, now: int)
      modifies this`entries, this`pinnedTaskId, this`pinnedOutcome, this`activeNeedsDecision
      ensures View() == MarkViewed(old(View()), task, now)
    {
      var changed := Observe(task, true, now);
      if changed {
        entries := Bounded(entries);
      }
    }

    method Activates(taskId: Option<string>)
      modifies this`activeTaskId, this`pinnedTaskId, this`pinnedOutcome, this`activeNeedsDecision
      ensures View() == SetActive(old(View()), taskId)
    {
      if activeTaskId == taskId {
        return;
      }
      activeTaskId, pinnedTaskId, pinnedOutcome, activeNeedsDecision := taskId, None, None, taskId.Some?;
    }

    method Deactivates(taskId: string)
      modifies this`activeTaskId, this`pinnedTaskId, this`pinnedOutcome, this`activeNeedsDecision
      ensures View() == ClearActive(old(View()), taskId)
    {
      if activeTaskId != Some(taskId) {
        return;
      }
      activeTaskId, pinnedTaskId, pinnedOutcome, activeNeedsDecision := None, None, None, false;
    }
  }

  // --- Which entries are kept ---

  ghost predicate NewestFirst(entries: Entries) {
    forall i, j :: 0 <= i < j < |entries| ==> entries[i].1.touchedAt >= entries[j].1.touchedAt
  }

  lemma {:induction false} NewestFirstAdds(entries: Entries, last: (string, Entry))
    ensures NewestFirst(entries + [last])
       <==> NewestFirst(entries) && forall entry :: entry in entries ==> entry.1.touchedAt >= last.1.touchedAt
  {
    var all := entries + [last];
    assert forall i :: 0 <= i < |entries| ==> all[i] == entries[i];
    assert all[|entries|] == last;
  }

  lemma {:induction false} PlacedKeeps(sorted: Entries, entry: (string, Entry))
    ensures multiset(Placed(sorted, entry)) == multiset(sorted) + multiset{entry}
    ensures forall other :: other in Placed(sorted, entry) <==> other in sorted || other == entry
  {
    if sorted != [] {
      var rest, last := sorted[..|sorted| - 1], sorted[|sorted| - 1];
      assert sorted == rest + [last];
      PlacedKeeps(rest, entry);
    }
  }

  lemma {:induction false} PlacedSorts(sorted: Entries, entry: (string, Entry))
    requires NewestFirst(sorted)
    ensures NewestFirst(Placed(sorted, entry))
  {
    hide NewestFirst;
    NewestFirstAdds(sorted, entry);
    if sorted == [] {
      NoneFirst();
    } else {
      var rest, last := sorted[..|sorted| - 1], sorted[|sorted| - 1];
      assert sorted == rest + [last];
      NewestFirstAdds(rest, last);
      PlacedSorts(rest, entry);
      PlacedKeeps(rest, entry);
      NewestFirstAdds(Placed(rest, entry), last);
    }
  }

  lemma {:induction false} NoneFirst()
    ensures NewestFirst([])
  {
  }

  lemma {:induction false} NewestSorts(entries: Entries)
    ensures multiset(Newest(entries)) == multiset(entries) && NewestFirst(Newest(entries))
  {
    hide NewestFirst, Placed;
    if entries == [] {
      NoneFirst();
    } else {
      var rest, last := entries[..|entries| - 1], entries[|entries| - 1];
      assert entries == rest + [last];
      NewestSorts(rest);
      PlacedKeeps(Newest(rest), last);
      PlacedSorts(Newest(rest), last);
    }
  }

  function At(time: int): ((string, Entry)) -> bool {
    (entry: (string, Entry)) => entry.1.touchedAt == time
  }

  lemma {:induction false} PlacedKeepsTimes(sorted: Entries, entry: (string, Entry), time: int)
    ensures Filter(Placed(sorted, entry), At(time))
         == Filter(sorted, At(time)) + if entry.1.touchedAt == time then [entry] else []
  {
    hide Filter;
    if sorted == [] || sorted[|sorted| - 1].1.touchedAt >= entry.1.touchedAt {
      FilterAdds(sorted, entry, At(time));
    } else {
      var rest, last := sorted[..|sorted| - 1], sorted[|sorted| - 1];
      assert sorted == rest + [last];
      PlacedKeepsTimes(rest, entry, time);
      FilterAdds(rest, last, At(time));
      FilterAdds(Placed(rest, entry), last, At(time));
    }
  }

  // Entries of one time keep their order.
  lemma {:induction false} OneTimeKeepsItsOrder(entries: Entries, time: int)
    ensures Filter(Newest(entries), At(time)) == Filter(entries, At(time))
  {
    hide Filter, Placed;
    if entries != [] {
      var rest, last := entries[..|entries| - 1], entries[|entries| - 1];
      OneTimeKeepsItsOrder(rest, time);
      PlacedKeepsTimes(Newest(rest), last, time);
      assert entries == rest + [last];
      FilterAdds(rest, last, At(time));
    }
  }

  lemma {:induction false} CutByAge(all: Entries, cut: nat)
    requires NewestFirst(all) && cut <= |all|
    ensures multiset(all) == multiset(all[..cut]) + multiset(all[cut..])
    ensures forall kept, gone :: kept in all[..cut] && gone in all[cut..] ==> gone.1.touchedAt <= kept.1.touchedAt
  {
    assert all == all[..cut] + all[cut..];
    forall i, j | 0 <= i < cut && 0 <= j < |all| - cut
      ensures all[cut..][j].1.touchedAt <= all[..cut][i].1.touchedAt
    {
      assert all[..cut][i] == all[i] && all[cut..][j] == all[cut + j];
    }
  }

  // Of one time the first are kept.
  lemma {:induction false} OfOneTimeTheFirstAreKept(entries: Entries, time: int)
    ensures Filter(Bounded(entries), At(time)) <= Filter(entries, At(time))
  {
    if |entries| > MAX_TASK_OUTCOME_VIEWS {
      var sorted, kept := Newest(entries), Bounded(entries);
      assert sorted == kept + sorted[|kept|..];
      FilterJoins(kept, sorted[|kept|..], At(time));
      OneTimeKeepsItsOrder(entries, time);
    }
  }

  // When there are too many, 512 are kept, the ones touched last: what is dropped is no newer
  // than anything kept.
  lemma {:induction false} TheNewestAreKept(entries: Entries)
    ensures var kept := Bounded(entries);
            && (if |entries| <= 512 then kept == entries else |kept| == 512)
            && multiset(kept) <= multiset(entries)
            && (forall gone, other :: gone in multiset(entries) - multiset(kept) && other in kept ==>
                  gone.1.touchedAt <= other.1.touchedAt)
  {
    if |entries| > MAX_TASK_OUTCOME_VIEWS {
      NewestSorts(entries);
      CutByAge(Newest(entries), MAX_TASK_OUTCOME_VIEWS);
      hide Newest, NewestFirst;
      assert multiset(entries) - multiset(Bounded(entries)) == multiset(Newest(entries)[MAX_TASK_OUTCOME_VIEWS..]);
    }
  }

  // --- Runs ---

  datatype Step =
    | Observe(tasks: seq<Task>, now: int)
    | Mark(task: Task, now: int)
    | Activate(open: Option<string>)
    | Deactivate(closed: string)

  function Apply(s: Store, step: Step): Store {
    match step
    case Observe(tasks, now) => ObserveTasks(s, tasks, now)
    case Mark(task, now) => MarkViewed(s, task, now)
    case Activate(open) => SetActive(s, open)
    case Deactivate(closed) => ClearActive(s, closed)
  }

  function After(s: Store, steps: seq<Step>): Store
    decreases |steps|
  {
    if steps == [] then s else After(Apply(s, steps[0]), steps[1..])
  }

  function Ids(entries: Entries): set<string> {
    set entry | entry in entries :: entry.0
  }

  // Each id has one entry, and only the open task is pinned.
  ghost predicate Sound(s: Store) {
    && Unique(s.entries)
    && (s.pinned.Some? ==> s.pinned == s.active)
  }

  ghost predicate Unique(entries: Entries) {
    forall i, j :: 0 <= i < j < |entries| ==> entries[i].0 != entries[j].0
  }

  lemma {:induction false} LookupPut(entries: Entries, id: string, entry: Entry, other: string)
    ensures Lookup(Put(entries, id, entry), other) == if other == id then Some(entry) else Lookup(entries, other)
  {
    if entries != [] && entries[|entries| - 1].0 != id {
      LookupPut(entries[..|entries| - 1], id, entry, other);
    }
  }

  lemma {:induction false} UniqueAdds(entries: Entries, last: (string, Entry))
    ensures Unique(entries + [last]) <==> Unique(entries) && last.0 !in Ids(entries)
    ensures Ids(entries + [last]) == Ids(entries) + {last.0}
  {
    var all := entries + [last];
    assert forall i :: 0 <= i < |entries| ==> all[i] == entries[i];
    assert all[|entries|] == last;
    assert forall entry :: entry in all <==> entry in entries || entry == last;
    if last.0 in Ids(entries) {
      var i :| 0 <= i < |entries| && entries[i].0 == last.0;
      assert all[i].0 == all[|entries|].0;
    }
  }

  lemma {:induction false} PutStaysUnique(entries: Entries, id: string, entry: Entry)
    requires Unique(entries)
    ensures Unique(Put(entries, id, entry)) && Ids(Put(entries, id, entry)) == Ids(entries) + {id}
  {
    hide Unique, Ids;
    if entries == [] {
      UniqueAdds([], (id, entry));
      NothingIsUnique();
      assert [] + [(id, entry)] == [(id, entry)];
    } else {
      var rest, last := entries[..|entries| - 1], entries[|entries| - 1];
      assert entries == rest + [last];
      UniqueAdds(rest, last);
      if last.0 == id {
        UniqueAdds(rest, (id, entry));
      } else {
        PutStaysUnique(rest, id, entry);
        UniqueAdds(Put(rest, id, entry), last);
      }
    }
  }

  lemma {:induction false} NothingIsUnique()
    ensures Unique([]) && Ids([]) == {}
  {
  }

  lemma {:induction false} SizeIsIds(entries: Entries)
    requires Unique(entries)
    ensures |Ids(entries)| == |entries|
  {
    hide Unique, Ids;
    if entries == [] {
      NothingIsUnique();
    } else {
      var rest, last := entries[..|entries| - 1], entries[|entries| - 1];
      assert entries == rest + [last];
      UniqueAdds(rest, last);
      SizeIsIds(rest);
    }
  }

  // While few enough tasks are tracked, nothing is ever dropped.
  lemma {:induction false} FewAreAllKept(entries: Entries, tracked: set<string>)
    requires Unique(entries) && Ids(entries) <= tracked && |tracked| <= MAX_TASK_OUTCOME_VIEWS
    ensures Bounded(entries) == entries
  {
    hide Unique, Ids, Newest;
    SizeIsIds(entries);
    Smaller(Ids(entries), tracked);
  }

  lemma {:induction false} Smaller(a: set<string>, b: set<string>)
    requires a <= b
    ensures |a| <= |b|
  {
    assert b == a + (b - a);
  }

  // --- The open row ---

  // The rows of a task while its outcome stays the same: fresh ones that say so, and stale
  // ones in its state.
  predicate RowOf(row: Task, id: string, outcome: Outcome) {
    row.id == id && row.state == outcome.state && (row.stale || OutcomeOf(row) == outcome)
  }

  // A run while the task is open and keeps its outcome; nobody is opened but itself, and
  // nobody closed but others.
  ghost predicate Within(step: Step, id: string, outcome: Outcome, tracked: set<string>) {
    match step
    case Observe(tasks, _) =>
      forall task :: task in tasks ==> task.id in tracked && (task.id == id ==> RowOf(task, id, outcome))
    case Mark(task, _) => task.id in tracked && (task.id == id ==> RowOf(task, id, outcome))
    case Activate(open) => open == Some(id)
    case Deactivate(closed) => closed != id
  }

  // What a run says of the task: its rows in order, each with whether it marks the task viewed.
  type Sightings = seq<(Task, bool)>

  function InList(tasks: seq<Task>, id: string): Sightings {
    if tasks == [] then []
    else
      var last := tasks[|tasks| - 1];
      InList(tasks[..|tasks| - 1], id) + if last.id == id then [(last, !last.stale)] else []
  }

  function InStep(step: Step, id: string): Sightings {
    match step
    case Observe(tasks, _) => InList(tasks, id)
    case Mark(task, _) => if task.id == id then [(task, true)] else []
    case _ => []
  }

  function InRun(steps: seq<Step>, id: string): Sightings
    decreases |steps|
  {
    if steps == [] then [] else InStep(steps[0], id) + InRun(steps[1..], id)
  }

  // The first row that marks the task viewed.
  function FirstViewed(seen: Sightings): Option<Task> {
    if seen == [] then None
    else if FirstViewed(seen[..|seen| - 1]).Some? then FirstViewed(seen[..|seen| - 1])
    else if seen[|seen| - 1].1 then Some(seen[|seen| - 1].0)
    else None
  }

  // Whether the open task's row stands among the unread ones, after all that was seen of it.
  predicate Stands(s: Store, seen: Sightings, outcome: Outcome, shown: Task) {
    var first := FirstViewed(seen);
    if first.None? then !StoredViewed(s, shown)
    else !StoredViewed(s, first.value) && Shows(shown, Pin(s, seen, outcome))
  }

  // What is pinned when a task turns out unread: what its fresh row shows; or, for a stale
  // one, the outcome stored in its state, if need be made up from the first row seen.
  function Pin(s: Store, seen: Sightings, outcome: Outcome): Outcome
    requires FirstViewed(seen).Some?
  {
    if FirstViewed(seen).value.stale && seen != [] then SeenOutcome(s, seen[0].0) else outcome
  }

  ghost predicate OfOne(seen: Sightings, id: string, outcome: Outcome) {
    forall sighting :: sighting in seen ==>
      RowOf(sighting.0, id, outcome) && (!sighting.0.stale ==> sighting.1)
  }

  // The store, having begun with `s` and seen this of the open task.
  ghost predicate Since(s: Store, now: Store, id: string, outcome: Outcome, tracked: set<string>, seen: Sightings) {
    && now.active == Some(id) && Unique(now.entries) && Ids(now.entries) <= tracked
    && OfOne(seen, id, outcome)
    && if FirstViewed(seen).None? then Undecided(s, now, id, seen)
       else
         && !now.needsDecision
         && if StoredViewed(s, FirstViewed(seen).value) then now.pinned.None?
            else now.pinned == Some(id) && now.pinnedOutcome == Some(Pin(s, seen, outcome))
  }

  ghost predicate Undecided(s: Store, now: Store, id: string, seen: Sightings) {
    && now.needsDecision && now.pinned.None?
    && if seen == [] then Lookup(now.entries, id) == Lookup(s.entries, id)
       else
         var entry := Lookup(now.entries, id);
         && entry.Some? && entry.value.outcome == SeenOutcome(s, seen[0].0)
         && entry.value.viewed == StoredViewed(s, seen[0].0)
  }

  lemma {:induction false} SinceTells(s: Store, now: Store, id: string, outcome: Outcome, tracked: set<string>,
                                      seen: Sightings, shown: Task)
    requires Since(s, now, id, outcome, tracked, seen) && RowOf(shown, id, outcome)
    ensures IsOrderingUnread(now, shown) == Stands(s, seen, outcome, shown)
  {
    hide Unique, Ids;
    NoneViewed(seen);
    assert seen != [] ==> seen[0] in seen;
  }

  lemma {:induction false} NoneViewed(seen: Sightings)
    ensures FirstViewed(seen).None? <==> forall sighting :: sighting in seen ==> !sighting.1
    ensures FirstViewed(seen).Some? ==> seen != [] && (FirstViewed(seen).value, true) in seen
  {
    if seen != [] {
      var rest, last := seen[..|seen| - 1], seen[|seen| - 1];
      assert seen == rest + [last];
      NoneViewed(rest);
    }
  }

  lemma {:induction false} SeesOne(seen: Sightings, task: Task, viewed: bool)
    ensures var more := seen + [(task, viewed)];
            FirstViewed(more) ==
            if FirstViewed(seen).None? && viewed then Some(task) else FirstViewed(seen)
  {
    assert (seen + [(task, viewed)])[..|seen|] == seen;
  }

  lemma {:induction false} ObservedOther(s: Store, now: Store, id: string, outcome: Outcome, tracked: set<string>,
                                         seen: Sightings, task: Task, viewed: bool, at: int)
    requires Since(s, now, id, outcome, tracked, seen) && task.id in tracked && task.id != id
    ensures Since(s, Observed(now, task, viewed, at).0, id, outcome, tracked, seen)
  {
    hide Unique, Ids, Put, Lookup, FirstViewed;
    var entry := Entry(SeenOutcome(now, task), viewed, at);
    PutStaysUnique(now.entries, task.id, entry);
    LookupPut(now.entries, task.id, entry, id);
  }

  lemma {:induction false} ObservedOpen(s: Store, now: Store, id: string, outcome: Outcome, tracked: set<string>,
                                        seen: Sightings, task: Task, viewed: bool, at: int)
    requires Since(s, now, id, outcome, tracked, seen) && id in tracked
    requires RowOf(task, id, outcome) && (!task.stale ==> viewed)
    ensures Since(s, Observed(now, task, viewed, at).0, id, outcome, tracked, seen + [(task, viewed)])
  {
    hide Unique, Ids, Put, Lookup, FirstViewed;
    var entry := Entry(SeenOutcome(now, task), viewed, at);
    PutStaysUnique(now.entries, id, entry);
    LookupPut(now.entries, id, entry, id);
    SeesOne(seen, task, viewed);
    NoneViewed(seen);
    var more := seen + [(task, viewed)];
    assert more[0] == if seen == [] then (task, viewed) else seen[0];
    assert forall sighting :: sighting in more <==> sighting in seen || sighting == (task, viewed);
    assert seen != [] ==> seen[0] in seen;
  }

  lemma {:induction false} ListObserved(s: Store, now: Store, id: string, outcome: Outcome, tracked: set<string>,
                                        seen: Sightings, tasks: seq<Task>, at: int)
    requires Since(s, now, id, outcome, tracked, seen) && id in tracked
    requires Within(Observe(tasks, at), id, outcome, tracked)
    ensures Since(s, ObservedAll(now, tasks, at).0, id, outcome, tracked, seen + InList(tasks, id))
  {
    hide Observed, RowOf, Undecided, OfOne;
    if tasks == [] {
      assert seen + [] == seen;
    } else {
      var rest, last := tasks[..|tasks| - 1], tasks[|tasks| - 1];
      assert forall task :: task in rest ==> task in tasks;
      ListObserved(s, now, id, outcome, tracked, seen, rest, at);
      var before, more := ObservedAll(now, rest, at).0, seen + InList(rest, id);
      var viewed := before.active == Some(last.id) && !last.stale;
      if last.id == id {
        ObservedOpen(s, before, id, outcome, tracked, more, last, viewed, at);
        assert more + [(last, viewed)] == seen + InList(tasks, id);
      } else {
        ObservedOther(s, before, id, outcome, tracked, more, last, viewed, at);
        assert more == seen + InList(tasks, id);
      }
    }
  }

  lemma {:induction false} CommittedSince(s: Store, now: Store, id: string, outcome: Outcome, tracked: set<string>,
                                          seen: Sightings, changed: bool)
    requires Since(s, now, id, outcome, tracked, seen) && |tracked| <= MAX_TASK_OUTCOME_VIEWS
    ensures Since(s, Committed(now, changed), id, outcome, tracked, seen)
  {
    hide Bounded;
    FewAreAllKept(now.entries, tracked);
  }

  lemma {:induction false} StepSince(s: Store, now: Store, id: string, outcome: Outcome, tracked: set<string>,
                                     seen: Sightings, step: Step)
    requires Since(s, now, id, outcome, tracked, seen) && id in tracked && |tracked| <= MAX_TASK_OUTCOME_VIEWS
    requires Within(step, id, outcome, tracked)
    ensures Since(s, Apply(now, step), id, outcome, tracked, seen + InStep(step, id))
  {
    hide Observed, ObservedAll, Committed, RowOf, Undecided, OfOne;
    assert seen + [] == seen;
    match step {
      case Observe(tasks, at) =>
        ListObserved(s, now, id, outcome, tracked, seen, tasks, at);
        var observed := ObservedAll(now, tasks, at);
        CommittedSince(s, observed.0, id, outcome, tracked, seen + InList(tasks, id), observed.1);
      case Mark(task, at) =>
        var observed := Observed(now, task, true, at);
        if task.id == id {
          ObservedOpen(s, now, id, outcome, tracked, seen, task, true, at);
        } else {
          ObservedOther(s, now, id, outcome, tracked, seen, task, true, at);
        }
        CommittedSince(s, observed.0, id, outcome, tracked, seen + InStep(step, id), observed.1);
      case Activate(_) =>
      case Deactivate(_) =>
    }
  }

  lemma {:induction false} RunSince(s: Store, now: Store, id: string, outcome: Outcome, tracked: set<string>,
                                    seen: Sightings, steps: seq<Step>)
    requires Since(s, now, id, outcome, tracked, seen) && id in tracked && |tracked| <= MAX_TASK_OUTCOME_VIEWS
    requires forall step :: step in steps ==> Within(step, id, outcome, tracked)
    ensures Since(s, After(now, steps), id, outcome, tracked, seen + InRun(steps, id))
    decreases |steps|
  {
    hide Since, Within, Apply, InStep;
    if steps == [] {
      assert seen + [] == seen;
    } else {
      assert steps[0] in steps && forall step :: step in steps[1..] ==> step in steps;
      StepSince(s, now, id, outcome, tracked, seen, steps[0]);
      RunSince(s, Apply(now, steps[0]), id, outcome, tracked, seen + InStep(steps[0], id), steps[1..]);
      assert seen + InRun(steps, id) == seen + InStep(steps[0], id) + InRun(steps[1..], id);
    }
  }

  // A task is opened and keeps its outcome; fresh and stale rows of it are observed, and
  // either kind may mark it viewed. Where its row stands after any such run is decided by
  // the store it began with, the first row seen and the first that marked it.
  lemma {:induction false} WhereTheOpenRowStands(s: Store, id: string, outcome: Outcome, tracked: set<string>,
                                                 steps: seq<Step>, shown: Task)
    requires Sound(s) && s.active != Some(id) && Ids(s.entries) + {id} <= tracked
    requires |tracked| <= MAX_TASK_OUTCOME_VIEWS && RowOf(shown, id, outcome)
    requires forall step :: step in steps ==> Within(step, id, outcome, tracked)
    ensures IsOrderingUnread(After(SetActive(s, Some(id)), steps), shown) ==
            Stands(s, InRun(steps, id), outcome, shown)
  {
    hide Within, InRun, IsOrderingUnread;
    var begun := SetActive(s, Some(id));
    assert Since(s, begun, id, outcome, tracked, []);
    RunSince(s, begun, id, outcome, tracked, [], steps);
    assert [] + InRun(steps, id) == InRun(steps, id);
    SinceTells(s, After(begun, steps), id, outcome, tracked, InRun(steps, id), shown);
  }

  // Before it is opened a row stands among the unread ones unless its outcome is viewed.
  lemma {:induction false} ClosedRow(s: Store, row: Task)
    requires Sound(s) && s.active != Some(row.id)
    ensures IsOrderingUnread(s, row) == !StoredViewed(s, row)
  {
  }

  // Whether a row stands after such a run where it stood before.
  ghost predicate Stays(s: Store, row: Task, steps: seq<Step>, shown: Task) {
    IsOrderingUnread(After(SetActive(s, Some(row.id)), steps), shown) == IsOrderingUnread(s, row)
  }

  ghost predicate Opens(s: Store, row: Task, outcome: Outcome, tracked: set<string>, steps: seq<Step>, shown: Task) {
    && Sound(s) && s.active != Some(row.id) && Ids(s.entries) + {row.id} <= tracked
    && |tracked| <= MAX_TASK_OUTCOME_VIEWS
    && RowOf(row, row.id, outcome) && RowOf(shown, row.id, outcome)
    && forall step :: step in steps ==> Within(step, row.id, outcome, tracked)
  }

  // Another outcome in the same state has been viewed: stale rows look read, fresh ones do not.
  predicate Mixed(s: Store, id: string, outcome: Outcome) {
    var entry := Lookup(s.entries, id);
    && entry.Some? && entry.value.viewed
    && entry.value.outcome.state == outcome.state && entry.value.outcome != outcome
  }

  // While only fresh rows mark it viewed, a row stays, be it shown fresh or stale before and
  // after, if no other outcome in its state has been viewed. If one has, a stale row stays
  // exactly as long as it is shown stale and none has marked it, and a fresh one exactly
  // when it is not so.
  lemma {:induction false} AFreshenedRowStaysIff(s: Store, row: Task, outcome: Outcome, tracked: set<string>,
                                                 steps: seq<Step>, shown: Task)
    requires Opens(s, row, outcome, tracked, steps, shown)
    requires forall task, now :: Mark(task, now) in steps && task.id == row.id ==> !task.stale
    ensures Stays(s, row, steps, shown) <==>
            (Mixed(s, row.id, outcome) ==>
               (row.stale <==> shown.stale && FirstViewed(InRun(steps, row.id)).None?))
  {
    hide Sound, Within, InRun, IsOrderingUnread, FirstViewed, Ids;
    var seen := InRun(steps, row.id);
    WhereTheOpenRowStands(s, row.id, outcome, tracked, steps, shown);
    ClosedRow(s, row);
    if FirstViewed(seen).Some? {
      NoneViewed(seen);
      OnlyFreshView(steps, row.id, outcome, tracked);
    }
  }

  lemma {:induction false} OnlyFreshView(steps: seq<Step>, id: string, outcome: Outcome, tracked: set<string>)
    requires forall step :: step in steps ==> Within(step, id, outcome, tracked)
    requires forall task, now :: Mark(task, now) in steps && task.id == id ==> !task.stale
    ensures forall sighting :: sighting in InRun(steps, id) ==>
              RowOf(sighting.0, id, outcome) && (sighting.1 ==> !sighting.0.stale)
    decreases |steps|
  {
    if steps != [] {
      assert steps[0] in steps && forall step :: step in steps[1..] ==> step in steps;
      OnlyFreshView(steps[1..], id, outcome, tracked);
      if steps[0].Observe? {
        ListHas(steps[0].tasks, id);
      }
    }
  }

  lemma {:induction false} ListHas(tasks: seq<Task>, id: string)
    ensures forall sighting :: sighting in InList(tasks, id) ==>
              sighting.0 in tasks && sighting.0.id == id && sighting.1 == !sighting.0.stale
  {
    if tasks != [] {
      ListHas(tasks[..|tasks| - 1], id);
    }
  }

  // In particular a row that does not change stays, be it fresh or stale.
  lemma {:induction false} AnUnchangedRowStays(s: Store, row: Task, tracked: set<string>, steps: seq<Step>)
    requires Opens(s, row, OutcomeOf(row), tracked, steps, row)
    requires forall sighting :: sighting in InRun(steps, row.id) ==> sighting.0 == row
    ensures Stays(s, row, steps, row)
  {
    hide Sound, Within, InRun, IsOrderingUnread, FirstViewed, Ids;
    WhereTheOpenRowStands(s, row.id, OutcomeOf(row), tracked, steps, row);
    ClosedRow(s, row);
    NoneViewed(InRun(steps, row.id));
    assert InRun(steps, row.id) != [] ==> InRun(steps, row.id)[0] in InRun(steps, row.id);
  }

  const EMPTY := Store([], None, None, None, false)

  // The store that was reached by opening a task, seeing it failed, and leaving it.
  lemma {:induction false} SeenFailing(s: Store)
    requires s == After(EMPTY, [Activate(Some("a")), Observe([Task("a", Failed, "before", false)], 0), Deactivate("a")])
    ensures s == Store([("a", Entry(Outcome(Failed, "before"), true, 0))], None, None, None, false)
  {
    var row := Task("a", Failed, "before", false);
    var begun := SetActive(EMPTY, Some("a"));
    assert [row][..0] == [] && [Observe([row], 0), Deactivate("a")][1..] == [Deactivate("a")];
    assert ObservedAll(begun, [row], 0) == Observed(begun, row, true, 0);
    assert [Activate(Some("a")), Observe([row], 0), Deactivate("a")][1..] == [Observe([row], 0), Deactivate("a")];
    assert [Deactivate("a")][1..] == [];
  }

  // The task then fails anew: the list shows a stale row first, read by its state, and opening
  // it and reading it again moves it among the unread ones, though its outcome never changed
  // while it was open and no stale row marked it.
  lemma {:induction false} AFreshenedRowMoves() returns (before: seq<Step>, s: Store, stale: Task, reread: Task)
    ensures s == After(EMPTY, before) && stale.stale && !reread.stale
    ensures RowOf(stale, reread.id, OutcomeOf(reread)) && Mixed(s, reread.id, OutcomeOf(reread))
    ensures !IsOrderingUnread(s, stale)
    ensures IsOrderingUnread(After(SetActive(s, Some(stale.id)), [Observe([reread], 1)]), reread)
  {
    before := [Activate(Some("a")), Observe([Task("a", Failed, "before", false)], 0), Deactivate("a")];
    s := After(EMPTY, before);
    SeenFailing(s);
    stale, reread := Task("a", Failed, "before", true), Task("a", Failed, "after", false);
    assert "before"[0] != "after"[0];
    var steps := [Observe([reread], 1)];
    assert Lookup(s.entries, "a") == Some(Entry(Outcome(Failed, "before"), true, 0));
    assert Ids(s.entries) + {"a"} <= {"a"};
    hide Lookup;
    AFreshenedRowStaysIff(s, stale, OutcomeOf(reread), {"a"}, steps, reread);
  }

  // When a stale row is the first to mark the task viewed, the row it is read as afterwards
  // stands where the stale one stood exactly when the stale one was viewed, or the outcome
  // stored for it happens to be the task's own.
  lemma {:induction false} AMarkedStaleRowStaysIff(s: Store, row: Task, tracked: set<string>, steps: seq<Step>,
                                                   reread: Task)
    requires Opens(s, row, OutcomeOf(reread), tracked, steps, reread) && row.stale && !reread.stale
    requires FirstViewed(InRun(steps, row.id)).Some? && FirstViewed(InRun(steps, row.id)).value.stale
    ensures Stays(s, row, steps, reread) <==>
            StoredViewed(s, row) || SeenOutcome(s, InRun(steps, row.id)[0].0) == OutcomeOf(reread)
  {
    hide Sound, InRun, IsOrderingUnread, FirstViewed, Ids;
    var seen, outcome := InRun(steps, row.id), OutcomeOf(reread);
    WhereTheOpenRowStands(s, row.id, outcome, tracked, steps, reread);
    ClosedRow(s, row);
    NoneViewed(seen);
    SightingsAreRows(steps, row.id, outcome, tracked);
  }

  lemma {:induction false} SightingsAreRows(steps: seq<Step>, id: string, outcome: Outcome, tracked: set<string>)
    requires forall step :: step in steps ==> Within(step, id, outcome, tracked)
    ensures forall sighting :: sighting in InRun(steps, id) ==> RowOf(sighting.0, id, outcome)
    decreases |steps|
  {
    if steps != [] {
      assert steps[0] in steps && forall step :: step in steps[1..] ==> step in steps;
      SightingsAreRows(steps[1..], id, outcome, tracked);
      if steps[0].Observe? {
        ListHas(steps[0].tasks, id);
      }
    }
  }

  // A stale row must not mark its task viewed: the outcome it stores is not the task's, and
  // the row moves as soon as it is read again.
  lemma {:induction false} MarkingAStaleRowMovesIt() returns (stale: Task, reread: Task)
    ensures stale.stale && !reread.stale && RowOf(stale, reread.id, OutcomeOf(reread))
    ensures IsOrderingUnread(EMPTY, stale) && IsOrderingUnread(EMPTY, reread)
    ensures !IsOrderingUnread(After(SetActive(EMPTY, Some(stale.id)), [Mark(stale, 0)]), reread)
  {
    stale, reread := Task("a", Failed, "before", true), Task("a", Failed, "after", false);
    assert "before"[0] != "after"[0];
    var begun := SetActive(EMPTY, Some("a"));
    assert [Mark(stale, 0)][1..] == [];
    assert After(begun, [Mark(stale, 0)]) == MarkViewed(begun, stale, 0);
  }

  // --- Every state that a run reaches is one to which all this applies ---

  lemma {:induction false} ObservedStaysSound(s: Store, task: Task, viewed: bool, now: int)
    requires Sound(s)
    ensures Sound(Observed(s, task, viewed, now).0)
  {
    hide Put;
    PutStaysUnique(s.entries, task.id, Entry(SeenOutcome(s, task), viewed, now));
  }

  lemma {:induction false} AllObservedStaysSound(s: Store, tasks: seq<Task>, now: int)
    requires Sound(s)
    ensures Sound(ObservedAll(s, tasks, now).0)
  {
    hide Observed, Sound;
    if tasks != [] {
      var rest, last := tasks[..|tasks| - 1], tasks[|tasks| - 1];
      AllObservedStaysSound(s, rest, now);
      var before := ObservedAll(s, rest, now).0;
      ObservedStaysSound(before, last, before.active == Some(last.id) && !last.stale, now);
    }
  }

  lemma {:induction false} PlacedStaysUnique(sorted: Entries, entry: (string, Entry))
    requires Unique(sorted) && entry.0 !in Ids(sorted)
    ensures Unique(Placed(sorted, entry)) && Ids(Placed(sorted, entry)) == Ids(sorted) + {entry.0}
  {
    hide Unique, Ids;
    UniqueAdds(sorted, entry);
    if sorted != [] {
      var rest, last := sorted[..|sorted| - 1], sorted[|sorted| - 1];
      assert sorted == rest + [last];
      UniqueAdds(rest, last);
      PlacedStaysUnique(rest, entry);
      UniqueAdds(Placed(rest, entry), last);
    }
  }

  lemma {:induction false} NewestStaysUnique(entries: Entries)
    requires Unique(entries)
    ensures Unique(Newest(entries)) && Ids(Newest(entries)) == Ids(entries)
  {
    hide Unique, Ids, Placed;
    if entries != [] {
      var rest, last := entries[..|entries| - 1], entries[|entries| - 1];
      assert entries == rest + [last];
      UniqueAdds(rest, last);
      NewestStaysUnique(rest);
      PlacedStaysUnique(Newest(rest), last);
    }
  }

  lemma {:induction false} CommittedStaysSound(s: Store, changed: bool)
    requires Sound(s)
    ensures Sound(Committed(s, changed))
  {
    hide Newest;
    NewestStaysUnique(s.entries);
  }

  lemma {:induction false} RunsAreSound(s: Store, steps: seq<Step>)
    requires Sound(s)
    ensures Sound(After(s, steps))
    decreases |steps|
  {
    hide Sound, Observed, Committed, Unique;
    if steps != [] {
      match steps[0] {
        case Observe(tasks, now) =>
          AllObservedStaysSound(s, tasks, now);
          CommittedStaysSound(ObservedAll(s, tasks, now).0, ObservedAll(s, tasks, now).1);
        case Mark(task, now) =>
          ObservedStaysSound(s, task, true, now);
          CommittedStaysSound(Observed(s, task, true, now).0, Observed(s, task, true, now).1);
        case Activate(open) => SwitchStaysSound(s, open, "");
        case Deactivate(closed) => SwitchStaysSound(s, None, closed);
      }
      RunsAreSound(Apply(s, steps[0]), steps[1..]);
    }
  }

  lemma {:induction false} SwitchStaysSound(s: Store, open: Option<string>, closed: string)
    requires Sound(s)
    ensures Sound(SetActive(s, open)) && Sound(ClearActive(s, closed))
  {
  }
}
