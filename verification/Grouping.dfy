// How the sidebar sorts and groups its tasks (web/src/state/sidebar-projection.ts).
module Grouping {
  import opened Basics
  import opened Lists

  // In order of how much each needs the user.
  datatype State =
    | NeedsInput | Failed | Cancelled | Blocked | PreparingCheckout | RemovingCheckout
    | Running | Queued | Pending | Answered | Completed

  const PRIORITY_ORDER: seq<State> := [
    NeedsInput, Failed, Cancelled, Blocked, PreparingCheckout, RemovingCheckout,
    Running, Queued, Pending, Answered, Completed]

  // Times are milliseconds, or nothing when the text does not read as a time.
  datatype Task = Task(
    id: string, parent: Option<string>, cwd: string, origin: Option<string>, state: State,
    heading: string, created: Option<int>, updated: Option<int>)

  datatype Group = Group(id: string, title: Option<string>, count: nat, tasks: seq<Task>)

  datatype Grouping = Ungrouped | ByProject | ByParent | ByStatus

  datatype Sort = Recent | Updated | Priority

  // --- Sorting ---

  function Rank(state: State): (r: nat)
    ensures r < |PRIORITY_ORDER| && PRIORITY_ORDER[r] == state
  {
    match state
    case NeedsInput => 0
    case Failed => 1
    case Cancelled => 2
    case Blocked => 3
    case PreparingCheckout => 4
    case RemovingCheckout => 5
    case Running => 6
    case Queued => 7
    case Pending => 8
    case Answered => 9
    case Completed => 10
  }

  function CompareTimes(left: Option<int>, right: Option<int>): int {
    if left.Some? && right.Some? then left.value - right.value
    else if left.Some? then 1
    else if right.Some? then -1
    else 0
  }

  type Unread = Option<Task -> bool>

  function UnreadRank(unread: Task -> bool, task: Task): int {
    if unread(task) then 0 else 1
  }

  function Compare(sort: Sort, unread: Unread, left: Task, right: Task): int {
    match sort
    case Recent => CompareTimes(right.created, left.created)
    case Updated => CompareTimes(right.updated, left.updated)
    case Priority =>
      var priority := Rank(left.state) - Rank(right.state);
      if unread.None? || priority != 0 then priority
      else UnreadRank(unread.value, left) - UnreadRank(unread.value, right)
  }

  // What a stable sort makes: each task goes after those before it that it does not precede.
  function Insert(sorted: seq<Task>, task: Task, sort: Sort, unread: Unread): seq<Task> {
    if sorted == [] || Compare(sort, unread, sorted[|sorted| - 1], task) <= 0 then sorted + [task]
    else Insert(sorted[..|sorted| - 1], task, sort, unread) + [sorted[|sorted| - 1]]
  }

  function Sorted(tasks: seq<Task>, sort: Sort, unread: Unread): seq<Task> {
    if tasks == [] then []
    else Insert(Sorted(tasks[..|tasks| - 1], sort, unread), tasks[|tasks| - 1], sort, unread)
  }

  ghost predicate Ascending(tasks: seq<Task>, sort: Sort, unread: Unread) {
    forall i, j :: 0 <= i < j < |tasks| ==> Compare(sort, unread, tasks[i], tasks[j]) <= 0
  }

  function Level(task: Task, sort: Sort, unread: Unread): Task -> bool {
    other => Compare(sort, unread, task, other) == 0
  }

  lemma {:induction false} ComparesInOrder(sort: Sort, unread: Unread, x: Task, y: Task, z: Task)
    ensures Compare(sort, unread, x, y) > 0 <==> Compare(sort, unread, y, x) < 0
    ensures Compare(sort, unread, x, y) <= 0 && Compare(sort, unread, y, z) <= 0 ==> Compare(sort, unread, x, z) <= 0
    ensures Compare(sort, unread, x, y) == 0 ==>
        (Compare(sort, unread, x, z) == 0 <==> Compare(sort, unread, y, z) == 0)
  {
  }

  lemma {:induction false} InsertKeeps(sorted: seq<Task>, task: Task, sort: Sort, unread: Unread)
    ensures multiset(Insert(sorted, task, sort, unread)) == multiset(sorted) + multiset{task}
  {
    hide Compare;
    if sorted != [] {
      var rest, last := sorted[..|sorted| - 1], sorted[|sorted| - 1];
      assert sorted == rest + [last];
      InsertKeeps(rest, task, sort, unread);
    }
  }

  lemma {:induction false} AscendingEnds(tasks: seq<Task>, last: Task, sort: Sort, unread: Unread)
    ensures Ascending(tasks + [last], sort, unread)
       <==> Ascending(tasks, sort, unread) && forall task :: task in tasks ==> Compare(sort, unread, task, last) <= 0
  {
    hide Compare;
    var all := tasks + [last];
    assert forall i :: 0 <= i < |tasks| ==> all[i] == tasks[i];
    assert all[|tasks|] == last;
  }

  lemma {:induction false} InsertAscends(sorted: seq<Task>, task: Task, sort: Sort, unread: Unread)
    requires Ascending(sorted, sort, unread)
    ensures Ascending(Insert(sorted, task, sort, unread), sort, unread)
  {
    hide Compare;
    if sorted == [] {
      assert Insert(sorted, task, sort, unread) == [task];
    } else {
      var rest, last := sorted[..|sorted| - 1], sorted[|sorted| - 1];
      assert sorted == rest + [last];
      hide Ascending;
      AscendingEnds(rest, last, sort, unread);
      if Compare(sort, unread, last, task) <= 0 {
        hide Insert;
        forall x | x in sorted
          ensures Compare(sort, unread, x, task) <= 0
        {
          ComparesInOrder(sort, unread, x, last, task);
        }
        AscendingEnds(sorted, task, sort, unread);
      } else {
        var placed := Insert(rest, task, sort, unread);
        assert Insert(sorted, task, sort, unread) == placed + [last];
        InsertAscends(rest, task, sort, unread);
        InsertKeeps(rest, task, sort, unread);
        hide Insert;
        ComparesInOrder(sort, unread, last, task, task);
        forall x | x in placed
          ensures Compare(sort, unread, x, last) <= 0
        {
          assert x in multiset(placed);
          assert x in rest || x == task;
        }
        AscendingEnds(placed, last, sort, unread);
      }
    }
  }

  lemma {:induction false} InsertKeepsLevels(sorted: seq<Task>, task: Task, sort: Sort, unread: Unread, at: Task)
    ensures Filter(Insert(sorted, task, sort, unread), Level(at, sort, unread))
         == Filter(sorted, Level(at, sort, unread)) + if Level(at, sort, unread)(task) then [task] else []
  {
    hide Compare, Filter;
    var level := Level(at, sort, unread);
    if sorted == [] || Compare(sort, unread, sorted[|sorted| - 1], task) <= 0 {
      assert Insert(sorted, task, sort, unread) == sorted + [task];
      FilterAdds(sorted, task, level);
    } else {
      var rest, last := sorted[..|sorted| - 1], sorted[|sorted| - 1];
      var placed := Insert(rest, task, sort, unread);
      assert sorted == rest + [last];
      assert Insert(sorted, task, sort, unread) == placed + [last];
      hide Insert;
      InsertKeepsLevels(rest, task, sort, unread, at);
      FilterAdds(placed, last, level);
      FilterAdds(rest, last, level);
      ComparesInOrder(sort, unread, at, last, task);
      assert !(level(task) && level(last));
      hide Level;
      var kept := Filter(rest, level);
      var one, other := if level(task) then [task] else [], if level(last) then [last] else [];
      assert kept + one + other == kept + other + one;
    }
  }

  // Sorting keeps exactly the tasks it is given, puts them in order, and leaves tasks that
  // rank the same in the order they came.
  lemma {:induction false} SortingIsStable(tasks: seq<Task>, sort: Sort, unread: Unread, at: Task)
    ensures multiset(Sorted(tasks, sort, unread)) == multiset(tasks)
    ensures Ascending(Sorted(tasks, sort, unread), sort, unread)
    ensures Filter(Sorted(tasks, sort, unread), Level(at, sort, unread)) == Filter(tasks, Level(at, sort, unread))
  {
    hide Compare, Insert, Level, Ascending;
    if tasks != [] {
      var rest, last := tasks[..|tasks| - 1], tasks[|tasks| - 1];
      SortingIsStable(rest, sort, unread, at);
      assert tasks == rest + [last];
      InsertKeeps(Sorted(rest, sort, unread), last, sort, unread);
      InsertAscends(Sorted(rest, sort, unread), last, sort, unread);
      InsertKeepsLevels(Sorted(rest, sort, unread), last, sort, unread, at);
      FilterAdds(rest, last, Level(at, sort, unread));
    } else {
      assert Ascending([], sort, unread) by { EmptyAscends(sort, unread); }
    }
  }

  lemma {:induction false} EmptyAscends(sort: Sort, unread: Unread)
    ensures Ascending([], sort, unread)
  {
  }

  // An earlier time, where none is earlier than any.
  predicate NoLater(a: Option<int>, b: Option<int>) {
    a.Some? ==> b.Some? && a.value <= b.value
  }

  // How a sorted list reads: the newest first, by the time each sort goes by, those without one
  // last; or the states in order of how much they need the user, and of one state the unread
  // ones first where that is told.
  lemma {:induction false} WhatComesFirst(tasks: seq<Task>, sort: Sort, unread: Unread, i: nat, j: nat)
    requires i < j < |Sorted(tasks, sort, unread)|
    ensures var first, second := Sorted(tasks, sort, unread)[i], Sorted(tasks, sort, unread)[j];
            match sort
            case Recent => NoLater(second.created, first.created)
            case Updated => NoLater(second.updated, first.updated)
            case Priority =>
              exists a: nat, b: nat ::
                && a <= b < |PRIORITY_ORDER|
                && PRIORITY_ORDER[a] == first.state && PRIORITY_ORDER[b] == second.state
                && (unread.Some? && first.state == second.state && unread.value(second) ==> unread.value(first))
  {
    var any := Task("", None, "", None, Running, "", None, None);
    SortingIsStable(tasks, sort, unread, any);
    var first, second := Sorted(tasks, sort, unread)[i], Sorted(tasks, sort, unread)[j];
    assert Compare(sort, unread, first, second) <= 0;
    if sort.Priority? {
      assert PRIORITY_ORDER[Rank(first.state)] == first.state && PRIORITY_ORDER[Rank(second.state)] == second.state;
      assert Rank(first.state) <= Rank(second.state);
    }
  }

  // --- Which group a task belongs to ---

  function StateName(state: State): string {
    match state
    case NeedsInput => "needs_input"
    case Failed => "failed"
    case Cancelled => "cancelled"
    case Blocked => "blocked"
    case PreparingCheckout => "preparing_checkout"
    case RemovingCheckout => "removing_checkout"
    case Running => "running"
    case Queued => "queued"
    case Pending => "pending"
    case Answered => "answered"
    case Completed => "completed"
  }

  function StateLabel(state: State): string {
    match state
    case NeedsInput => "Needs input"
    case Failed => "Failed"
    case Cancelled => "Cancelled"
    case Blocked => "Blocked"
    case PreparingCheckout => "Preparing checkout"
    case RemovingCheckout => "Removing checkout"
    case Running => "Running"
    case Queued => "Queued"
    case Pending => "Waiting"
    case Answered => "Answered"
    case Completed => "Completed"
  }

  function ProjectId(task: Task): string {
    if task.origin.Some? then task.origin.value else task.cwd
  }

  // The text after the last slash that has any.
  function ProjectName(path: string): string {
    var trimmed := TrimSlashes(path);
    if trimmed == "" then path else AfterSlash(trimmed)
  }

  function TrimSlashes(path: string): string {
    if path != "" && path[|path| - 1] == '/' then TrimSlashes(path[..|path| - 1]) else path
  }

  function AfterSlash(path: string): string {
    if path == "" || path[|path| - 1] == '/' then "" else AfterSlash(path[..|path| - 1]) + [path[|path| - 1]]
  }

  predicate OnlySlashes(text: string) {
    forall i :: 0 <= i < |text| ==> text[i] == '/'
  }

  // A path's last part that has any text: what stands before it ends in a slash, and only
  // slashes come after it.
  ghost predicate IsLastPart(path: string, folder: string, name: string, slashes: string) {
    && path == folder + name + slashes
    && name != "" && '/' !in name
    && (folder == "" || folder[|folder| - 1] == '/')
    && OnlySlashes(slashes)
  }

  // A project goes by the last part of its path, or by all of it when it is only slashes.
  lemma {:induction false} ProjectsAreNamed(path: string)
    ensures forall folder, name, slashes :: IsLastPart(path, folder, name, slashes) ==> ProjectName(path) == name
    ensures OnlySlashes(path) ==> ProjectName(path) == path
  {
    forall folder, name, slashes | IsLastPart(path, folder, name, slashes)
      ensures ProjectName(path) == name
    {
      Trimmed(folder + name, slashes);
      assert (folder + name)[|folder + name| - 1] == name[|name| - 1];
      AfterTheSlash(folder, name);
    }
    if OnlySlashes(path) {
      Trimmed("", path);
      assert "" + path == path;
    }
  }

  lemma {:induction false} Trimmed(rest: string, slashes: string)
    requires rest == "" || rest[|rest| - 1] != '/'
    requires OnlySlashes(slashes)
    ensures TrimSlashes(rest + slashes) == rest
  {
    var path := rest + slashes;
    if slashes == "" {
      assert path == rest;
    } else {
      assert path[|path| - 1] == slashes[|slashes| - 1];
      assert path[..|path| - 1] == rest + slashes[..|slashes| - 1];
      Trimmed(rest, slashes[..|slashes| - 1]);
    }
  }

  lemma {:induction false} AfterTheSlash(folder: string, name: string)
    requires (folder == "" || folder[|folder| - 1] == '/') && '/' !in name
    ensures AfterSlash(folder + name) == name
  {
    var path := folder + name;
    if name == "" {
      assert path == folder;
    } else {
      assert path[|path| - 1] == name[|name| - 1];
      assert path[..|path| - 1] == folder + name[..|name| - 1];
      AfterTheSlash(folder, name[..|name| - 1]);
    }
  }

  // --- A task's root ---

  const MAX_PARENT_DEPTH: nat := 32

  type ById = map<string, Task>

  function Indexed(tasks: seq<Task>): ById {
    if tasks == [] then map[] else Indexed(tasks[..|tasks| - 1])[tasks[|tasks| - 1].id := tasks[|tasks| - 1]]
  }

  function RootFrom(byId: ById, current: Task, seen: set<string>, left: nat): Task
    decreases left
  {
    if left == 0 || current.parent.None? || current.parent.value !in byId || current.parent.value in seen then current
    else RootFrom(byId, byId[current.parent.value], seen + {current.parent.value}, left - 1)
  }

  function RootOf(byId: ById, task: Task): Task {
    RootFrom(byId, task, {task.id}, MAX_PARENT_DEPTH)
  }

  method Root(task: Task, byId: ById) returns (current: Task)
    ensures current == RootOf(byId, task)
  {
    current := task;
    var seen := {current.id};
    for depth := 0 to MAX_PARENT_DEPTH
      invariant RootFrom(byId, current, seen, MAX_PARENT_DEPTH - depth) == RootOf(byId, task)
    {
      if current.parent.None? {
        return;
      }
      var parentId := current.parent.value;
      if parentId !in byId {
        return;
      }
      if parentId in seen {
        return;
      }
      seen := seen + {parentId};
      current := byId[parentId];
    }
  }

  predicate IsTop(byId: ById, task: Task) {
    task.parent.None? || task.parent.value !in byId
  }

  function Parent(byId: ById, task: Task): Task {
    if IsTop(byId, task) then task else byId[task.parent.value]
  }

  function Ancestor(byId: ById, task: Task, n: nat): Task
    decreases n
  {
    if n == 0 then task else Ancestor(byId, Parent(byId, task), n - 1)
  }

  // The chain of parents comes to its top after `n` of them.
  ghost predicate EndsAfter(byId: ById, task: Task, n: nat)
    decreases n
  {
    if n == 0 then IsTop(byId, task) else !IsTop(byId, task) && EndsAfter(byId, Parent(byId, task), n - 1)
  }

  ghost predicate Keyed(byId: ById) {
    forall id :: id in byId ==> byId[id].id == id
  }

  lemma {:induction false} EndsOnce(byId: ById, task: Task, m: nat, n: nat)
    requires EndsAfter(byId, task, m) && EndsAfter(byId, task, n)
    ensures m == n
    decreases m
  {
    if m > 0 && n > 0 {
      EndsOnce(byId, Parent(byId, task), m - 1, n - 1);
    }
  }

  lemma {:induction false} AncestorsEnd(byId: ById, task: Task, n: nat, k: nat)
    requires EndsAfter(byId, task, n)
    ensures k <= n ==> EndsAfter(byId, Ancestor(byId, task, k), n - k)
    ensures k >= n ==> Ancestor(byId, task, k) == Ancestor(byId, task, n)
    decreases k
  {
    if k == 0 {
    } else if n == 0 {
      AncestorsEnd(byId, task, 0, k - 1);
    } else {
      AncestorsEnd(byId, Parent(byId, task), n - 1, k - 1);
    }
  }

  lemma {:induction false} AncestorsParent(byId: ById, task: Task, k: nat)
    ensures Ancestor(byId, task, k + 1) == Parent(byId, Ancestor(byId, task, k))
    decreases k
  {
    if k > 0 {
      AncestorsParent(byId, Parent(byId, task), k - 1);
    }
  }

  // The named task is at least `n` steps from its top.
  ghost predicate AtLeast(byId: ById, id: string, n: nat) {
    id in byId && exists m: nat :: m >= n && EndsAfter(byId, byId[id], m)
  }

  // Along a chain that ends nothing is ever seen twice, so the walk is stopped only by
  // the top or by its limit.
  lemma {:induction false} WalkReaches(byId: ById, task: Task, n: nat, seen: set<string>, left: nat)
    requires EndsAfter(byId, task, n)
    requires forall id :: id in seen ==> AtLeast(byId, id, n)
    ensures RootFrom(byId, task, seen, left) == Ancestor(byId, task, left)
    decreases left
  {
    if left > 0 {
      if n == 0 {
        AncestorsEnd(byId, task, 0, left);
      } else {
        var id := task.parent.value;
        Unseen(byId, id, n);
        assert EndsAfter(byId, byId[id], n - 1);
        forall earlier | earlier in seen
          ensures AtLeast(byId, earlier, n - 1)
        {
        }
        WalkReaches(byId, byId[id], n - 1, seen + {id}, left - 1);
      }
    }
  }

  lemma {:induction false} Unseen(byId: ById, id: string, n: nat)
    requires n > 0 && id in byId && EndsAfter(byId, byId[id], n - 1)
    ensures !AtLeast(byId, id, n)
  {
    forall m: nat | EndsAfter(byId, byId[id], m)
      ensures m < n
    {
      EndsOnce(byId, byId[id], m, n - 1);
    }
  }

  // Where parents do not go round in circles, a task and its parent come under the same
  // root exactly when the task is within thirty-two steps of the top.
  lemma {:induction false} FamilyStaysTogetherIff(byId: ById, task: Task, n: nat)
    requires Keyed(byId) && task.id in byId && byId[task.id] == task
    requires n > 0 && EndsAfter(byId, task, n)
    ensures RootOf(byId, task).id == RootOf(byId, Parent(byId, task)).id <==> n <= 32
  {
    var parent := Parent(byId, task);
    assert AtLeast(byId, task.id, n) && AtLeast(byId, parent.id, n - 1);
    WalkReaches(byId, task, n, {task.id}, MAX_PARENT_DEPTH);
    WalkReaches(byId, parent, n - 1, {parent.id}, MAX_PARENT_DEPTH);
    var root, above := Ancestor(byId, task, MAX_PARENT_DEPTH), Ancestor(byId, parent, MAX_PARENT_DEPTH);
    assert above == Ancestor(byId, task, MAX_PARENT_DEPTH + 1);
    AncestorsParent(byId, task, MAX_PARENT_DEPTH);
    AncestorsParent(byId, task, MAX_PARENT_DEPTH - 1);
    AncestorsEnd(byId, task, n, MAX_PARENT_DEPTH);
    AncestorsEnd(byId, task, n, MAX_PARENT_DEPTH + 1);
    if n > MAX_PARENT_DEPTH && root == above {
      EndsOnce(byId, root, n - MAX_PARENT_DEPTH, n - MAX_PARENT_DEPTH - 1);
    }
  }

  // So a whole family of that depth has one root: its top.
  lemma {:induction false} FamilyHasOneRoot(byId: ById, task: Task, n: nat)
    requires Keyed(byId) && task.id in byId && byId[task.id] == task
    requires n <= 32 && EndsAfter(byId, task, n)
    ensures RootOf(byId, task) == Ancestor(byId, task, n) && IsTop(byId, RootOf(byId, task))
  {
    assert AtLeast(byId, task.id, n);
    WalkReaches(byId, task, n, {task.id}, MAX_PARENT_DEPTH);
    AncestorsEnd(byId, task, n, MAX_PARENT_DEPTH);
    AncestorsEnd(byId, task, n, n);
  }

  // The parents lead through `n` tasks into a circle of `m` others.
  ghost predicate Circles(byId: ById, task: Task, n: nat, m: nat) {
    && m > 0 && Ancestor(byId, task, n + m) == Ancestor(byId, task, n)
    && (forall k: nat :: k < n + m ==> !IsTop(byId, Ancestor(byId, task, k)))
    && (forall i: nat, j: nat :: i < j < n + m ==> Ancestor(byId, task, i).id != Ancestor(byId, task, j).id)
  }

  ghost function IdsTo(byId: ById, task: Task, k: nat): set<string> {
    (if k == 0 then {} else IdsTo(byId, task, k - 1)) + {Ancestor(byId, task, k).id}
  }

  lemma {:induction false} NextId(byId: ById, task: Task, k: nat)
    requires Keyed(byId) && !IsTop(byId, Ancestor(byId, task, k))
    ensures var next := Ancestor(byId, task, k).parent.value;
            && next in byId && byId[next] == Ancestor(byId, task, k + 1) && next == Ancestor(byId, task, k + 1).id
            && IdsTo(byId, task, k + 1) == IdsTo(byId, task, k) + {next}
  {
    AncestorsParent(byId, task, k);
  }

  // The walk stops where it would see a task again, or at its limit.
  lemma {:induction false} WalkCircles(byId: ById, task: Task, n: nat, m: nat, k: nat, left: nat)
    requires Keyed(byId) && Circles(byId, task, n, m) && k < n + m
    ensures RootFrom(byId, Ancestor(byId, task, k), IdsTo(byId, task, k), left) ==
            Ancestor(byId, task, Min(n + m - 1, k + left))
    decreases left
  {
    hide IdsTo, Ancestor, Keyed;
    if left > 0 {
      NextId(byId, task, k);
      var next := Ancestor(byId, task, k + 1).id;
      SeenBefore(byId, task, k, next);
      if k + 1 < n + m {
        assert next !in IdsTo(byId, task, k);
        WalkCircles(byId, task, n, m, k + 1, left - 1);
      } else {
        assert Names(byId, task, n, next) && n <= k;
      }
    }
  }

  predicate Names(byId: ById, task: Task, i: nat, id: string) {
    Ancestor(byId, task, i).id == id
  }

  lemma {:induction false} SeenBefore(byId: ById, task: Task, k: nat, id: string)
    ensures id in IdsTo(byId, task, k) <==> exists i: nat :: i <= k && Names(byId, task, i, id)
  {
    if k > 0 {
      SeenBefore(byId, task, k - 1, id);
    }
    assert Names(byId, task, k, id) <==> Ancestor(byId, task, k).id == id;
  }

  lemma {:induction false} CirclesOn(byId: ById, task: Task, n: nat, m: nat)
    requires Circles(byId, task, n, m)
    ensures Circles(byId, Parent(byId, task), if n > 0 then n - 1 else 0, m)
  {
    var parent := Parent(byId, task);
    assert forall k: nat :: Ancestor(byId, parent, k) == Ancestor(byId, task, k + 1);
    if n == 0 {
      AncestorsParent(byId, task, m);
      assert Ancestor(byId, parent, m - 1) == task;
    }
  }

  // Where parents run in a circle, a task on it comes under its parent's root only if it is
  // its own parent; one that leads to it, exactly while no more than thirty-two steps go by
  // before the walk comes round.
  lemma {:induction false} CircleStaysTogetherIff(byId: ById, task: Task, n: nat, m: nat)
    requires Keyed(byId) && task.id in byId && byId[task.id] == task && Circles(byId, task, n, m)
    ensures RootOf(byId, task).id == RootOf(byId, Parent(byId, task)).id <==>
            if n == 0 then m == 1 else n + m - 1 <= 32
  {
    var parent, before := Parent(byId, task), if n > 0 then n - 1 else 0;
    CirclesOn(byId, task, n, m);
    WalkCircles(byId, task, n, m, 0, MAX_PARENT_DEPTH);
    WalkCircles(byId, parent, before, m, 0, MAX_PARENT_DEPTH);
    assert IdsTo(byId, task, 0) == {task.id} && IdsTo(byId, parent, 0) == {parent.id};
    var i, j := Min(n + m - 1, MAX_PARENT_DEPTH), Min(before + m - 1, MAX_PARENT_DEPTH) + 1;
    assert RootOf(byId, task) == Ancestor(byId, task, i) && RootOf(byId, parent) == Ancestor(byId, task, j);
  }

  // In a circle of two, each has the other for its root: they are shown apart.
  lemma {:induction false} ACircleComesApart() returns (byId: ById, a: Task, b: Task)
    ensures Keyed(byId) && byId == Indexed([a, b]) && Parent(byId, a) == b && Parent(byId, b) == a
    ensures RootOf(byId, a) == b && RootOf(byId, b) == a && a.id != b.id
  {
    a := Task("a", Some("b"), "", None, Running, "", None, None);
    b := Task("b", Some("a"), "", None, Running, "", None, None);
    byId := map["a" := a, "b" := b];
    assert "a"[0] != "b"[0];
    assert [a, b][..1] == [a] && [a][..0] == [];
    assert Indexed([a]) == map["a" := a];
    assert RootFrom(byId, b, {"a"} + {"b"}, MAX_PARENT_DEPTH - 1) == b;
    assert RootFrom(byId, a, {"b"} + {"a"}, MAX_PARENT_DEPTH - 1) == a;
  }
}
