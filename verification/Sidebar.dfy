// How the sidebar takes in live updates (web/src/state/sidebar-state.ts): each pointer is
// folded into the rows on screen, or the whole list is read again. Times are milliseconds,
// already read from their text.
module Sidebar {
  import Batcher
  import opened Basics
  import opened Lists

  const REREAD_INTERVAL: int := 15_000

  datatype ArchiveFilter = Active | Only | Include

  datatype Kind = Archived | Unarchived | Other

  datatype Task = Task(id: string, state: nat, title: string, updatedAt: int, archivedAt: Option<int>, stale: bool)

  datatype Pointer = Pointer(cursor: int, id: string, at: int, kind: Kind, state: nat, title: string)

  datatype State = State(
    tasks: seq<Task>,
    filter: ArchiveFilter,
    eventCursor: int,
    lastReread: Option<int>,
    sought: set<string>)     // the tasks the list was already read again for

  datatype Batch = Batch(cursor: int, stale: bool, pointers: seq<Pointer>)

  datatype Action = Nothing | Refresh

  // The first row of the task, or the number of rows.
  function IndexOf(tasks: seq<Task>, id: string): (i: nat)
    ensures i <= |tasks|
    ensures i < |tasks| ==> tasks[i].id == id
    ensures forall j :: 0 <= j < i ==> tasks[j].id != id
  {
    if tasks == [] then 0
    else if tasks[0].id == id then 0
    else
      var rest := IndexOf(tasks[1..], id);
      assert forall j :: 0 < j < rest + 1 ==> tasks[j] == tasks[1..][j - 1];
      1 + rest
  }

  predicate Listed(tasks: seq<Task>, id: string) {
    IndexOf(tasks, id) < |tasks|
  }

  predicate Admits(filter: ArchiveFilter, archived: bool) {
    match filter
    case Active => !archived
    case Only => archived
    case Include => true
  }

  predicate Blank(title: string) {
    forall c :: c in title ==> c in " \t\r\n"
  }

  predicate Due(state: State, now: int) {
    state.lastReread.None? || now - state.lastReread.value >= REREAD_INTERVAL
  }

  function RereadIfDue(state: State, now: int): (State, Action) {
    if Due(state, now) then (state.(lastReread := Some(now)), Refresh) else (state, Nothing)
  }

  // What a pointer makes of the row it is about.
  function Moved(task: Task, pointer: Pointer): Task {
    task.(state := pointer.state,
          title := if Blank(pointer.title) then task.title else pointer.title,
          updatedAt := pointer.at,
          archivedAt := if pointer.kind.Archived? then Some(pointer.at)
                        else if pointer.kind.Unarchived? then None
                        else task.archivedAt,
          stale := task.stale || pointer.state != task.state)
  }

  predicate Leaves(filter: ArchiveFilter, kind: Kind) {
    !kind.Other? && !Admits(filter, kind.Archived?)
  }

  function ApplyPointer(state: State, pointer: Pointer, now: int): (State, Action) {
    var hasGap := pointer.cursor > state.eventCursor + 1;
    var next := state.(eventCursor := Max(state.eventCursor, pointer.cursor));
    var i := IndexOf(state.tasks, pointer.id);
    if i == |state.tasks| then
      if pointer.id in state.sought then RereadIfDue(next, now)
      else (next.(sought := state.sought + {pointer.id}, lastReread := Some(now)), Refresh)
    else if hasGap then (next, Refresh)
    else if pointer.at < state.tasks[i].updatedAt then (next, Nothing)
    else if Leaves(state.filter, pointer.kind) then
      (next.(tasks := state.tasks[..i] + state.tasks[i + 1..]), Refresh)
    else
      (next.(tasks := state.tasks[i := Moved(state.tasks[i], pointer)]),
       if pointer.state != state.tasks[i].state then Refresh else Nothing)
  }

  // The fold over the pointers of a batch: it stops at the first that asks for a reread.
  function Fold(state: State, action: Action, pointers: seq<Pointer>, now: int): (State, Action)
    decreases |pointers|
  {
    if pointers == [] then (state, action)
    else
      var (next, taken) := ApplyPointer(state, pointers[0], now);
      if taken.Refresh? then (next, taken) else Fold(next, taken, pointers[1..], now)
  }

  function Raised(state: State, cursor: int): State {
    state.(eventCursor := Max(state.eventCursor, cursor))
  }

  function Taken(state: State, batch: Batch, now: int): (State, Action) {
    Fold(Raised(state, batch.cursor), if batch.stale then Refresh else Nothing, batch.pointers, now)
  }

  method ApplyEventBatch(state: State, batch: Batch, now: int) returns (next: State, action: Action)
    ensures (next, action) == Taken(state, batch, now)
    ensures batch.stale && batch.pointers == [] ==> action == Refresh
  {
    next := if batch.cursor > state.eventCursor then state.(eventCursor := batch.cursor) else state;
    action := if batch.stale then Refresh else Nothing;
    var i := 0;
    while i < |batch.pointers|
      invariant 0 <= i <= |batch.pointers|
      invariant i > 0 ==> action == Nothing
      invariant i == 0 ==> action == if batch.stale then Refresh else Nothing
      invariant Taken(state, batch, now) == Fold(next, action, batch.pointers[i..], now)
    {
      var applied := ApplyPointer(next, batch.pointers[i], now);
      assert batch.pointers[i..][1..] == batch.pointers[i + 1..];
      next, action := applied.0, applied.1;
      if action == Refresh {
        return;
      }
      i := i + 1;
    }
  }

  // --- What one pointer does ---

  // A title with something to read in it.
  predicate Says(title: string) {
    exists c :: c in title && c != ' ' && c != '\t' && c != '\r' && c != '\n'
  }

  // A pointer to a task with no row: the list is read again once for each such task, and for
  // one it was already read for, after fifteen seconds. No row changes.
  lemma {:induction false} WhatAnUnlistedPointerDoes(state: State, pointer: Pointer, now: int)
    requires forall task :: task in state.tasks ==> task.id != pointer.id
    ensures var (next, action) := ApplyPointer(state, pointer, now);
            && (action == Nothing <==>
                  pointer.id in state.sought && state.lastReread.Some? && now - state.lastReread.value < 15_000)
            && next.tasks == state.tasks && next.filter == state.filter
            && next.eventCursor == (if pointer.cursor > state.eventCursor then pointer.cursor else state.eventCursor)
            && next.sought == state.sought + {pointer.id}
            && next.lastReread == (if action == Refresh then Some(now) else state.lastReread)
  {
    assert !Listed(state.tasks, pointer.id) by {
      ListedIs(state.tasks, pointer.id);
    }
  }

  // A pointer to a task with a row: past a gap the list is only read again, and an older word
  // changes nothing. Otherwise a task archived or brought back out of the filter's sight loses
  // its row, and any other row takes the pointer's word. The list is read again when the row
  // went or its state changed.
  lemma {:induction false} WhatAListedPointerDoes(state: State, pointer: Pointer, now: int, i: nat)
    requires i < |state.tasks| && state.tasks[i].id == pointer.id
    requires forall j :: 0 <= j < i ==> state.tasks[j].id != pointer.id
    ensures var (next, action) := ApplyPointer(state, pointer, now);
            var row := state.tasks[i];
            var gap := pointer.cursor > state.eventCursor + 1;
            var leaves := (pointer.kind == Archived && state.filter == Active) ||
                          (pointer.kind == Unarchived && state.filter == Only);
            && next.filter == state.filter && next.sought == state.sought && next.lastReread == state.lastReread
            && next.eventCursor == (if pointer.cursor > state.eventCursor then pointer.cursor else state.eventCursor)
            && (action == Refresh <==> gap || (pointer.at >= row.updatedAt && (leaves || pointer.state != row.state)))
            && (gap || pointer.at < row.updatedAt ==> next.tasks == state.tasks)
            && (!gap && pointer.at >= row.updatedAt && leaves ==>
                  next.tasks == state.tasks[..i] + state.tasks[i + 1..])
            && (!gap && pointer.at >= row.updatedAt && !leaves ==>
                  && |next.tasks| == |state.tasks|
                  && (forall j :: 0 <= j < |state.tasks| && j != i ==> next.tasks[j] == state.tasks[j])
                  && next.tasks[i].id == row.id
                  && next.tasks[i].state == pointer.state
                  && next.tasks[i].updatedAt == pointer.at
                  && next.tasks[i].title == (if Says(pointer.title) then pointer.title else row.title)
                  && next.tasks[i].archivedAt == (match pointer.kind
                                                  case Archived => Some(pointer.at)
                                                  case Unarchived => None
                                                  case Other => row.archivedAt)
                  && (next.tasks[i].stale <==> row.stale || pointer.state != row.state))
  {
    assert IndexOf(state.tasks, pointer.id) == i;
    BlankIs(pointer.title);
  }

  lemma {:induction false} BlankIs(title: string)
    ensures Blank(title) <==> !Says(title)
  {
  }

  // --- What the batcher's batches mean to the sidebar ---

  // A batch as the sidebar gets it: the batcher's, with what each pointer says.
  ghost predicate Carries(batch: Batch, sent: Batcher.Batch) {
    && batch.cursor == sent.cursor && batch.stale == sent.stale && |batch.pointers| == |sent.pointers|
    && (forall i :: 0 <= i < |batch.pointers| ==> batch.pointers[i].cursor == sent.pointers[i].cursor)
  }

  // Every stale batch the batcher can emit, in any run, makes the sidebar read its list
  // again, whatever the list holds.
  lemma {:induction false} StaleBatchesRefresh(steps: seq<Batcher.Step>, s: Batcher.State, sent: Batcher.Batch,
                            state: State, batch: Batch, now: int)
    requires Batcher.Runs(Batcher.START, steps, s) && sent in s.emitted && sent.stale
    requires Carries(batch, sent)
    ensures Taken(state, batch, now).1 == Refresh
  {
    Batcher.BatchesAreWellFormed(steps, s);
    assert Batcher.WellFormed(sent);
  }

  // The flag alone does not do it: with pointers beside it, the last pointer decides.
  lemma {:induction false} StaleCanBeForgotten() returns (state: State, batch: Batch)
    ensures batch.stale && Taken(state, batch, 0).1 == Nothing
  {
    var task := Task("a", 0, "title", 5, None, false);
    state := State([task], Active, 1, None, {});
    var pointer := Pointer(2, "a", 5, Other, 0, "");
    batch := Batch(2, true, [pointer]);
    assert Fold(ApplyPointer(Raised(state, 2), pointer, 0).0, Nothing, [], 0).1 == Nothing;
    assert batch.pointers[1..] == [];
  }

  // --- The gap check ---

  // The fold without its gap check.
  function FoldUngapped(state: State, action: Action, pointers: seq<Pointer>, now: int): (State, Action)
    decreases |pointers|
  {
    if pointers == [] then (state, action)
    else
      var (next, taken) := ApplyPointer(state, pointers[0].(cursor := state.eventCursor), now);
      if taken.Refresh? then (next, taken) else FoldUngapped(next, taken, pointers[1..], now)
  }

  // Without the check the cursors of the pointers do not matter at all.
  lemma {:induction false} CursorsDoNotMatter(state: State, action: Action, pointers: seq<Pointer>,
                                              others: seq<Pointer>, now: int)
    requires |pointers| == |others|
    requires forall i :: 0 <= i < |pointers| ==> others[i] == pointers[i].(cursor := others[i].cursor)
    ensures FoldUngapped(state, action, pointers, now) == FoldUngapped(state, action, others, now)
    decreases |pointers|
  {
    if pointers != [] {
      hide ApplyPointer;
      var cursor := state.eventCursor;
      assert others[0] == pointers[0].(cursor := others[0].cursor);
      assert pointers[0].(cursor := cursor) == others[0].(cursor := cursor);
      var (next, taken) := ApplyPointer(state, pointers[0].(cursor := cursor), now);
      CursorsDoNotMatter(next, taken, pointers[1..], others[1..], now);
    }
  }

  lemma {:induction false} GapsAreNotSeen(state: State, action: Action, pointers: seq<Pointer>, now: int)
    requires forall i :: 0 <= i < |pointers| ==> pointers[i].cursor <= state.eventCursor
    ensures Fold(state, action, pointers, now) == FoldUngapped(state, action, pointers, now)
    decreases |pointers|
  {
    if pointers != [] {
      var (next, taken) := ApplyPointer(state, pointers[0], now);
      assert ApplyPointer(state, pointers[0].(cursor := state.eventCursor), now) == (next, taken) by {
        Regapped(state, pointers[0], now);
      }
      assert next.eventCursor == state.eventCursor;
      GapsAreNotSeen(next, taken, pointers[1..], now);
    }
  }

  lemma {:induction false} Regapped(state: State, pointer: Pointer, now: int)
    requires pointer.cursor <= state.eventCursor
    ensures ApplyPointer(state, pointer.(cursor := state.eventCursor), now) == ApplyPointer(state, pointer, now)
  {
  }

  // Because the cursor is raised to the batch's before its pointers are looked at, no
  // batch of the batcher is ever read as having a gap: the cursors of its pointers do not
  // matter at all.
  lemma {:induction false} BatchesHideGaps(steps: seq<Batcher.Step>, s: Batcher.State, sent: Batcher.Batch,
                        state: State, batch: Batch, now: int)
    requires Batcher.Runs(Batcher.START, steps, s) && sent in s.emitted && Carries(batch, sent)
    ensures Taken(state, batch, now)
         == FoldUngapped(Raised(state, batch.cursor), if batch.stale then Refresh else Nothing, batch.pointers, now)
  {
    Batcher.BatchesAreWellFormed(steps, s);
    assert Batcher.WellFormed(sent);
    GapsAreNotSeen(Raised(state, batch.cursor), if batch.stale then Refresh else Nothing, batch.pointers, now);
  }

  // --- What holds when no reread is asked for ---

  // The same rows in the same order and the same states; titles and times may be newer.
  ghost predicate SameRows(before: seq<Task>, after: seq<Task>) {
    && |before| == |after|
    && (forall i :: 0 <= i < |before| ==>
          && after[i].id == before[i].id
          && after[i].state == before[i].state
          && after[i].stale == before[i].stale
          && after[i].updatedAt >= before[i].updatedAt)
  }

  // The newest word on a task among the pointers, or what was known before them.
  function Newest(pointers: seq<Pointer>, id: string, before: int): int {
    if pointers == [] then before
    else
      var p := pointers[|pointers| - 1];
      var earlier := Newest(pointers[..|pointers| - 1], id, before);
      if p.id == id && p.at >= earlier then p.at else earlier
  }

  // Left alone, the list is up to date: every pointer's task has a row, or the list was
  // read again for it within the last fifteen seconds; no pointer that counts moved a row
  // to another state or off the list; and every row has the newest time told of it.
  lemma {:induction false} NothingMeansUpToDate(state: State, action: Action, pointers: seq<Pointer>, now: int)
    requires Fold(state, action, pointers, now).1 == Nothing
    ensures var after := Fold(state, action, pointers, now).0;
            && SameRows(state.tasks, after.tasks)
            && after.lastReread == state.lastReread
            && (forall p :: p in pointers && !Listed(state.tasks, p.id) ==>
                  p.id in state.sought && !Due(state, now))
            && (forall i :: 0 <= i < |state.tasks| && IndexOf(state.tasks, state.tasks[i].id) == i ==>
                  after.tasks[i].updatedAt == Newest(pointers, state.tasks[i].id, state.tasks[i].updatedAt))
    decreases |pointers|
  {
    hide ApplyPointer, Newest;
    if pointers == [] {
      NewestOfNone();
    } else {
      var p := pointers[0];
      var (next, taken) := ApplyPointer(state, p, now);
      PointerStays(state, p, now);
      NothingMeansUpToDate(next, taken, pointers[1..], now);
      PositionsStay(state.tasks, next.tasks);
      forall i | 0 <= i < |state.tasks| && IndexOf(state.tasks, state.tasks[i].id) == i
        ensures Newest(pointers, state.tasks[i].id, state.tasks[i].updatedAt)
             == Newest(pointers[1..], state.tasks[i].id, next.tasks[i].updatedAt)
      {
        NewestOfRest(pointers, state.tasks[i].id, state.tasks[i].updatedAt);
      }
    }
  }

  lemma {:induction false} NewestOfNone()
    ensures forall id, before :: Newest([], id, before) == before
  {
  }

  lemma {:induction false} PointerStays(state: State, p: Pointer, now: int)
    requires ApplyPointer(state, p, now).1 == Nothing
    ensures var next := ApplyPointer(state, p, now).0;
            && SameRows(state.tasks, next.tasks)
            && next.lastReread == state.lastReread && next.sought == state.sought
            && (!Listed(state.tasks, p.id) ==> p.id in state.sought && !Due(state, now))
            && (forall i :: 0 <= i < |state.tasks| && IndexOf(state.tasks, state.tasks[i].id) == i ==>
                  next.tasks[i].updatedAt == if p.id == state.tasks[i].id && p.at >= state.tasks[i].updatedAt
                                             then p.at else state.tasks[i].updatedAt)
  {
  }

  lemma {:induction false} NewestOfRest(pointers: seq<Pointer>, id: string, before: int)
    requires pointers != []
    ensures Newest(pointers, id, before)
         == Newest(pointers[1..], id, if pointers[0].id == id && pointers[0].at >= before then pointers[0].at
              else before)
  {
    var last := |pointers| - 1;
    if last > 0 {
      NewestOfRest(pointers[..last], id, before);
      assert pointers[..last][1..] == pointers[1..][..last - 1];
    } else {
      assert pointers[..0] == [];
    }
  }

  lemma {:induction false} PositionsStay(before: seq<Task>, after: seq<Task>)
    requires SameRows(before, after)
    ensures forall id :: IndexOf(after, id) == IndexOf(before, id)
  {
  }

  // --- What holds of every row, reread or not ---

  // The list shows only what its filter admits.
  ghost predicate AllAdmitted(state: State) {
    forall task :: task in state.tasks ==> Admits(state.filter, task.archivedAt.Some?)
  }

  // A row as it may follow from one before: it keeps a title once it has one, and a change
  // of state leaves it stale until the list is read again.
  predicate Follows(before: Task, after: Task) {
    && after.id == before.id
    && (Blank(after.title) ==> Blank(before.title))
    && (before.stale || after.state != before.state ==> after.stale)
  }

  ghost predicate AllFollow(before: seq<Task>, after: seq<Task>) {
    forall task :: task in after ==> exists earlier :: earlier in before && Follows(earlier, task)
  }

  lemma {:induction false} PointerRowsFit(state: State, pointer: Pointer, now: int)
    ensures var next := ApplyPointer(state, pointer, now).0;
            && next.filter == state.filter && AllFollow(state.tasks, next.tasks)
            && (AllAdmitted(state) ==> AllAdmitted(next))
  {
    hide Blank, Due;
    var i, next := IndexOf(state.tasks, pointer.id), ApplyPointer(state, pointer, now).0;
    forall task | task in next.tasks
      ensures exists earlier :: earlier in state.tasks && Follows(earlier, task)
      ensures AllAdmitted(state) ==> Admits(state.filter, task.archivedAt.Some?)
    {
      if task in state.tasks {
        assert Follows(task, task);
      } else {
        assert task == Moved(state.tasks[i], pointer) && state.tasks[i] in state.tasks;
        assert Follows(state.tasks[i], task);
      }
    }
  }

  // A task that leaves the filter leaves the list, in every batch.
  lemma {:induction false} RowsStayFit(state: State, action: Action, pointers: seq<Pointer>, now: int)
    ensures var after := Fold(state, action, pointers, now).0;
            && after.filter == state.filter && AllFollow(state.tasks, after.tasks)
            && (AllAdmitted(state) ==> AllAdmitted(after))
    decreases |pointers|
  {
    hide ApplyPointer, Admits, Blank;
    if pointers == [] {
      assert forall task :: Follows(task, task);
    } else {
      var (next, taken) := ApplyPointer(state, pointers[0], now);
      PointerRowsFit(state, pointers[0], now);
      RowsStayFit(next, taken, pointers[1..], now);
    }
  }

  // --- Reading the list again ---

  function OffPage(page: seq<Task>, tail: int): Task -> bool {
    (task: Task) => !Listed(page, task.id) && task.updatedAt < tail
  }

  // A full page keeps the rows that could lie past its end.
  function MergeTasks(existing: seq<Task>, page: seq<Task>, truncated: bool): seq<Task> {
    if !truncated || page == [] then page
    else page + Filter(existing, OffPage(page, page[|page| - 1].updatedAt))
  }

  ghost predicate LatestFirst(tasks: seq<Task>) {
    forall i, j :: 0 <= i < j < |tasks| ==> tasks[i].updatedAt >= tasks[j].updatedAt && tasks[i].id != tasks[j].id
  }

  lemma {:induction false} ListedIs(tasks: seq<Task>, id: string)
    ensures Listed(tasks, id) <==> exists task :: task in tasks && task.id == id
  {
  }

  ghost predicate OneRowEach(tasks: seq<Task>) {
    forall a, b :: a in tasks && b in tasks && a.id == b.id ==> a == b
  }

  // Where the page is the head of the broker's list, a row that is still on that list, in
  // no newer a version, stays on screen, except when it has the very time of the page's
  // last row without being on the page.
  lemma {:induction false} ListedRowsStayIff(existing: seq<Task>, listed: seq<Task>, size: nat, row: Task,
          current: Task)
    requires OneRowEach(existing) && LatestFirst(listed) && 0 < size <= |listed|
    requires row in existing && current in listed && current.id == row.id && row.updatedAt <= current.updatedAt
    ensures var page := listed[..size];
            var merged := MergeTasks(existing, page, size < |listed|);
            && page <= merged
            && (Listed(merged, row.id) <==> Listed(page, row.id) || row.updatedAt != page[size - 1].updatedAt)
  {
    hide Listed, Filter;
    var page := listed[..size];
    var merged := MergeTasks(existing, page, size < |listed|);
    var k :| 0 <= k < |listed| && listed[k] == current;
    ListedIs(page, row.id);
    ListedIs(merged, row.id);
    if k < size {
      assert page[k] == current && merged[k] == current;
    } else {
      PastTheFold(listed, size, k);
      MergedHas(existing, page);
      hide LatestFirst, MergeTasks;
    }
  }

  lemma {:induction false} MergedHas(existing: seq<Task>, page: seq<Task>)
    requires page != []
    ensures page <= MergeTasks(existing, page, true)
    ensures forall task :: task in MergeTasks(existing, page, true) <==>
      task in page || (task in existing && !Listed(page, task.id) && task.updatedAt < page[|page| - 1].updatedAt)
  {
    hide Listed;
  }

  lemma {:induction false} PastTheFold(listed: seq<Task>, size: nat, k: nat)
    requires LatestFirst(listed) && 0 < size <= k < |listed|
    ensures forall task :: task in listed[..size] ==> task.id != listed[k].id && task.updatedAt >= listed[k].updatedAt
  {
    forall i | 0 <= i < size
      ensures listed[..size][i].id != listed[k].id && listed[..size][i].updatedAt >= listed[k].updatedAt
    {
      assert listed[..size][i] == listed[i];
    }
  }
}
