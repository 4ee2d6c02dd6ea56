// The groups the sidebar shows (web/src/state/sidebar-projection.ts): every task it is
// given, once, in a group of its own kind.
module TaskGroups {
  import opened Basics
  import opened Grouping
  import opened Lists

  // A task's group, by id and title.
  type Key = Task -> (string, string)

  function InGroup(key: Key, id: string): Task -> bool {
    task => key(task).0 == id
  }

  // The ids in the order they first come up.
  function FirstSeen(tasks: seq<Task>, key: Key): (ids: seq<string>)
    ensures Distinct(ids)
    ensures forall id :: id in ids <==> exists task :: task in tasks && key(task).0 == id
  {
    if tasks == [] then []
    else
      var rest, last := FirstSeen(tasks[..|tasks| - 1], key), tasks[|tasks| - 1];
      assert tasks == tasks[..|tasks| - 1] + [last];
      if key(last).0 in rest then rest else rest + [key(last).0]
  }

  // The title a group gets: its first task's.
  function TitleFor(tasks: seq<Task>, key: Key, id: string): Option<string> {
    if tasks == [] then None
    else
      var rest, last := TitleFor(tasks[..|tasks| - 1], key, id), tasks[|tasks| - 1];
      if rest.Some? then rest else if key(last).0 == id then Some(key(last).1) else None
  }

  function GroupFor(tasks: seq<Task>, key: Key, id: string): Group {
    var mine := Filter(tasks, InGroup(key, id));
    Group(id, TitleFor(tasks, key, id), |mine|, mine)
  }

  function GroupsFor(tasks: seq<Task>, key: Key, ids: seq<string>): seq<Group> {
    seq(|ids|, i requires 0 <= i < |ids| => GroupFor(tasks, key, ids[i]))
  }

  // What the maps hold of one group.
  ghost predicate Holds(tasks: seq<Task>, key: Key, titles: map<string, string>, buckets: map<string, seq<Task>>,
          id: string) {
    && (id in buckets <==> id in FirstSeen(tasks, key))
    && (id in titles <==> id in buckets)
    && Filter(tasks, InGroup(key, id)) == (if id in buckets then buckets[id] else [])
    && TitleFor(tasks, key, id) == (if id in titles then Some(titles[id]) else None)
  }

  lemma {:induction false} SeenMore(tasks: seq<Task>, key: Key, task: Task)
    ensures FirstSeen(tasks + [task], key)
         == FirstSeen(tasks, key) + if key(task).0 in FirstSeen(tasks, key) then [] else [key(task).0]
  {
    assert (tasks + [task])[..|tasks|] == tasks;
  }

  lemma {:induction false} TitledMore(tasks: seq<Task>, key: Key, task: Task, id: string)
    ensures TitleFor(tasks + [task], key, id)
         == if TitleFor(tasks, key, id).Some? then TitleFor(tasks, key, id)
            else if key(task).0 == id then Some(key(task).1) else None
  {
    assert (tasks + [task])[..|tasks|] == tasks;
  }

  lemma {:induction false} HoldsMore(tasks: seq<Task>, key: Key, titles: map<string, string>,
                                     buckets: map<string, seq<Task>>,
                                     task: Task, id: string)
    requires Holds(tasks, key, titles, buckets, id) && Holds(tasks, key, titles, buckets, key(task).0)
    ensures var mine := key(task).0;
            var t := if mine in buckets then titles else titles[mine := key(task).1];
            var b := buckets[mine := (if mine in buckets then buckets[mine] else []) + [task]];
            Holds(tasks + [task], key, t, b, id)
  {
    SeenMore(tasks, key, task);
    TitledMore(tasks, key, task, id);
    FilterAdds(tasks, task, InGroup(key, id));
    hide Filter, FirstSeen, TitleFor;
  }

  method Bucket(tasks: seq<Task>, key: Key) returns (groups: seq<Group>)
    ensures groups == GroupsFor(tasks, key, FirstSeen(tasks, key))
  {
    hide Filter, FirstSeen, TitleFor, InGroup;
    var order: seq<string> := [];
    var titles: map<string, string> := map[];
    var buckets: map<string, seq<Task>> := map[];
    NothingSeen(key);
    for i := 0 to |tasks|
      invariant order == FirstSeen(tasks[..i], key)
      invariant forall id :: Holds(tasks[..i], key, titles, buckets, id)
    {
      var (id, title) := key(tasks[i]);
      ghost var t, b := titles, buckets;
      assert Holds(tasks[..i], key, t, b, id);
      if id !in buckets {
        order := order + [id];
        titles := titles[id := title];
        buckets := buckets[id := []];
      }
      buckets := buckets[id := buckets[id] + [tasks[i]]];
      assert tasks[..i + 1] == tasks[..i] + [tasks[i]];
      SeenMore(tasks[..i], key, tasks[i]);
      ghost var seen := tasks[..i + 1];
      forall other
        ensures Holds(seen, key, titles, buckets, other)
      {
        HoldsMore(tasks[..i], key, t, b, tasks[i], other);
        hide Holds;
        assert buckets == b[id := (if id in b then b[id] else []) + [tasks[i]]];
      }
    }
    assert tasks[..|tasks|] == tasks;
    groups := [];
    for i := 0 to |order|
      invariant groups == GroupsFor(tasks, key, order[..i])
    {
      var id := order[i];
      assert id in order && Holds(tasks, key, titles, buckets, id);
      groups := groups + [Group(id, Some(titles[id]), |buckets[id]|, buckets[id])];
      assert order[..i + 1] == order[..i] + [id];
    }
    assert order[..|order|] == order;
  }

  lemma {:induction false} NothingSeen(key: Key)
    ensures FirstSeen([], key) == []
    ensures forall id :: Holds([], key, map[], map[], id)
  {
  }

  // --- Status groups ---

  function StatusKey(): Key {
    (task: Task) => (StateName(task.state), StateLabel(task.state))
  }

  // The states some task is in, in order of priority.
  function Occupied(tasks: seq<Task>, order: seq<State>): seq<string> {
    if order == [] then []
    else
      var last := order[|order| - 1];
      Occupied(tasks, order[..|order| - 1])
        + if Filter(tasks, InGroup(StatusKey(), StateName(last))) != [] then [StateName(last)] else []
  }

  ghost predicate HoldsState(tasks: seq<Task>, buckets: map<State, seq<Task>>, state: State) {
    && Filter(tasks, InGroup(StatusKey(), StateName(state))) == (if state in buckets then buckets[state] else [])
    && (state in buckets ==> buckets[state] != [])
  }

  lemma {:induction false} HoldsMoreOfState(tasks: seq<Task>, buckets: map<State, seq<Task>>, task: Task, state: State)
    requires HoldsState(tasks, buckets, state) && HoldsState(tasks, buckets, task.state)
    ensures var b := buckets[task.state := (if task.state in buckets then buckets[task.state] else []) + [task]];
            HoldsState(tasks + [task], b, state)
  {
    NamesDiffer();
    FilterAdds(tasks, task, InGroup(StatusKey(), StateName(state)));
    hide Filter;
  }

  lemma {:induction false} NoStates()
    ensures forall state :: HoldsState([], map[], state)
  {
  }

  lemma {:induction false} OneMoreState(tasks: seq<Task>, buckets: map<State, seq<Task>>, order: seq<State>,
          state: State)
    requires HoldsState(tasks, buckets, state)
    ensures var ids := Occupied(tasks, order);
            var more := if state in buckets
                        then [Group(StateName(state), Some(StateLabel(state)), |buckets[state]|, buckets[state])]
                             else [];
            GroupsFor(tasks, StatusKey(), Occupied(tasks, order + [state])) == GroupsFor(tasks, StatusKey(), ids) + more
  {
    assert (order + [state])[..|order|] == order;
    StatusTitle(tasks, state);
    hide Filter, InGroup, StatusKey, TitleFor, StateName, StateLabel;
    var ids, all := Occupied(tasks, order), Occupied(tasks, order + [state]);
    assert all == ids + if state in buckets then [StateName(state)] else [];
  }

  method StatusGroups(tasks: seq<Task>) returns (groups: seq<Group>)
    ensures groups == GroupsFor(tasks, StatusKey(), Occupied(tasks, PRIORITY_ORDER))
  {
    hide InGroup, StatusKey, HoldsState, Filter, Occupied, GroupsFor, GroupFor, StateName, StateLabel;
    var buckets: map<State, seq<Task>> := map[];
    NoStates();
    assert tasks[..0] == [];
    for i := 0 to |tasks|
      invariant forall state :: HoldsState(tasks[..i], buckets, state)
    {
      var task := tasks[i];
      ghost var before := buckets;
      var mine := if task.state in buckets then buckets[task.state] else [];
      buckets := buckets[task.state := mine + [task]];
      ghost var seen := tasks[..i + 1];
      assert seen == tasks[..i] + [task];
      forall state
        ensures HoldsState(seen, buckets, state)
      {
        HoldsMoreOfState(tasks[..i], before, task, state);
      }
    }
    assert tasks[..|tasks|] == tasks;
    groups := [];
    NoGroups(tasks);
    assert PRIORITY_ORDER[..0] == [];
    for i := 0 to |PRIORITY_ORDER|
      invariant groups == GroupsFor(tasks, StatusKey(), Occupied(tasks, PRIORITY_ORDER[..i]))
    {
      var state := PRIORITY_ORDER[i];
      assert PRIORITY_ORDER[..i + 1] == PRIORITY_ORDER[..i] + [state];
      OneMoreState(tasks, buckets, PRIORITY_ORDER[..i], state);
      if state in buckets {
        groups := groups + [Group(StateName(state), Some(StateLabel(state)), |buckets[state]|, buckets[state])];
      }
    }
    assert PRIORITY_ORDER[..|PRIORITY_ORDER|] == PRIORITY_ORDER;
  }

  lemma {:induction false} NoGroups(tasks: seq<Task>)
    ensures GroupsFor(tasks, StatusKey(), Occupied(tasks, [])) == []
  {
  }

  lemma {:induction false} NamesDiffer()
    ensures forall a: State, b: State :: StateName(a) == StateName(b) ==> a == b
  {
  }

  lemma {:induction false} StatusTitle(tasks: seq<Task>, state: State)
    ensures TitleFor(tasks, StatusKey(), StateName(state))
         == if Filter(tasks, InGroup(StatusKey(), StateName(state))) == [] then None else Some(StateLabel(state))
  {
    if tasks != [] {
      StatusTitle(tasks[..|tasks| - 1], state);
      NamesDiffer();
    }
  }

  // --- The whole list ---

  function InProject(project: string): Task -> bool {
    task => ProjectId(task) == project
  }

  // A project filter counts only while some task is in that project.
  function Scoped(tasks: seq<Task>, project: Option<string>): seq<Task> {
    var mine := if project.Some? then Filter(tasks, InProject(project.value)) else [];
    if mine != [] then mine else tasks
  }

  function KeyOf(grouping: Grouping, tasks: seq<Task>): Key {
    match grouping
    case Ungrouped => (task: Task) => ("all", "")
    case ByProject => (task: Task) => (ProjectId(task), ProjectName(ProjectId(task)))
    case ByParent =>
      var byId := Indexed(tasks);
      (task: Task) => (RootOf(byId, task).id, RootOf(byId, task).heading)
    case ByStatus => StatusKey()
  }

  function IdsOf(grouping: Grouping, tasks: seq<Task>): seq<string> {
    match grouping
    case Ungrouped => ["all"]
    case ByProject => FirstSeen(tasks, KeyOf(grouping, tasks))
    case ByParent => FirstSeen(tasks, KeyOf(grouping, tasks))
    case ByStatus => Occupied(tasks, PRIORITY_ORDER)
  }

  // A task alone with no parent needs no heading, nor does the list that is not grouped.
  function Retitled(grouping: Grouping, group: Group): Group {
    if grouping.Ungrouped? then group.(title := None)
    else if grouping.ByParent? && |group.tasks| == 1 && group.tasks[0].parent.None? then group.(title := None)
    else group
  }

  function Organize(tasks: seq<Task>, project: Option<string>, grouping: Grouping, sort: Sort,
          unread: Unread): seq<Group> {
    var scoped := Scoped(tasks, project);
    var groups := GroupsFor(scoped, KeyOf(grouping, scoped), IdsOf(grouping, scoped));
    seq(|groups|, i requires 0 <= i < |groups| =>
      Retitled(grouping, groups[i]).(tasks := Sorted(groups[i].tasks, sort, unread)))
  }

  function TasksOf(groups: seq<Group>): seq<seq<Task>> {
    seq(|groups|, i requires 0 <= i < |groups| => groups[i].tasks)
  }

  function InAny(key: Key, ids: seq<string>): Task -> bool {
    task => key(task).0 in ids
  }

  lemma {:induction false} PartsAddUp(tasks: seq<Task>, key: Key, ids: seq<string>)
    requires Distinct(ids)
    ensures multiset(Concat(TasksOf(GroupsFor(tasks, key, ids)))) == multiset(Filter(tasks, InAny(key, ids)))
  {
    if ids == [] {
      NoMembers(Filter(tasks, InAny(key, ids)));
    } else {
      var rest, last := ids[..|ids| - 1], ids[|ids| - 1];
      assert ids == rest + [last];
      PartsAddUp(tasks, key, rest);
      assert TasksOf(GroupsFor(tasks, key, ids))
          == TasksOf(GroupsFor(tasks, key, rest)) + [Filter(tasks, InGroup(key, last))];
      FilterSplits(tasks, InAny(key, rest), InGroup(key, last), InAny(key, ids));
    }
  }

  lemma {:induction false} ConcatPermutes(a: seq<seq<Task>>, b: seq<seq<Task>>)
    requires |a| == |b| && forall i :: 0 <= i < |a| ==> multiset(a[i]) == multiset(b[i])
    ensures multiset(Concat(a)) == multiset(Concat(b))
  {
    if a != [] {
      ConcatPermutes(a[..|a| - 1], b[..|b| - 1]);
    }
  }

  lemma {:induction false} OrderIsDistinct()
    ensures Distinct(PRIORITY_ORDER)
  {
    assert forall i :: 0 <= i < |PRIORITY_ORDER| ==> Rank(PRIORITY_ORDER[i]) == i;
  }

  lemma {:induction false} OccupiedStates(tasks: seq<Task>, order: seq<State>)
    requires Distinct(order)
    ensures Distinct(Occupied(tasks, order))
    ensures forall id :: id in Occupied(tasks, order) <==>
      Filter(tasks, InGroup(StatusKey(), id)) != [] && exists state :: state in order && StateName(state) == id
  {
    NamesDiffer();
    if order != [] {
      var rest, last := order[..|order| - 1], order[|order| - 1];
      assert order == rest + [last];
      OccupiedStates(tasks, rest);
      hide Filter;
      assert last !in rest;
    }
  }

  // Every id that heads a group has tasks of its own, and every task has its id there.
  lemma {:induction false} IdsCover(grouping: Grouping, tasks: seq<Task>)
    ensures Distinct(IdsOf(grouping, tasks))
    ensures forall task :: task in tasks ==> KeyOf(grouping, tasks)(task).0 in IdsOf(grouping, tasks)
    ensures forall id :: id in IdsOf(grouping, tasks) && !grouping.Ungrouped? ==>
      Filter(tasks, InGroup(KeyOf(grouping, tasks), id)) != []
  {
    var key := KeyOf(grouping, tasks);
    if grouping.ByStatus? {
      OrderIsDistinct();
      OccupiedStates(tasks, PRIORITY_ORDER);
      forall task | task in tasks
        ensures key(task).0 in IdsOf(grouping, tasks)
      {
        assert task in Filter(tasks, InGroup(key, key(task).0));
        assert PRIORITY_ORDER[Rank(task.state)] == task.state;
      }
    } else if !grouping.Ungrouped? {
      forall id | id in IdsOf(grouping, tasks)
        ensures Filter(tasks, InGroup(key, id)) != []
      {
        var task :| task in tasks && key(task).0 == id;
        assert task in Filter(tasks, InGroup(key, id));
      }
    }
  }

  lemma {:induction false} SortingKeeps(tasks: seq<Task>, sort: Sort, unread: Unread)
    ensures multiset(Sorted(tasks, sort, unread)) == multiset(tasks)
    ensures |Sorted(tasks, sort, unread)| == |tasks|
  {
    var any := Task("", None, "", None, Running, "", None, None);
    SortingIsStable(tasks, sort, unread, any);
    assert |multiset(Sorted(tasks, sort, unread))| == |multiset(tasks)|;
  }

  lemma {:induction false} GroupIsItsKind(tasks: seq<Task>, project: Option<string>, grouping: Grouping,
                                          sort: Sort, unread: Unread, i: nat)
    requires i < |Organize(tasks, project, grouping, sort, unread)|
    ensures var scoped, group := Scoped(tasks, project), Organize(tasks, project, grouping, sort, unread)[i];
            var ids := IdsOf(grouping, scoped);
            && i < |ids| && group.id == ids[i]
            && group.tasks == Sorted(Filter(scoped, InGroup(KeyOf(grouping, scoped), group.id)), sort, unread)
            && group.count == |group.tasks|
            && (grouping.Ungrouped? || group.tasks != [])
            && multiset(group.tasks) == multiset(Filter(scoped, InGroup(KeyOf(grouping, scoped), group.id)))
  {
    var scoped := Scoped(tasks, project);
    IdsCover(grouping, scoped);
    var id := IdsOf(grouping, scoped)[i];
    SortingKeeps(Filter(scoped, InGroup(KeyOf(grouping, scoped), id)), sort, unread);
    hide KeyOf, IdsOf, Scoped, Filter, Sorted, InGroup, TitleFor;
    assert id in IdsOf(grouping, scoped);
  }

  lemma {:induction false} GroupsAddUp(tasks: seq<Task>, project: Option<string>, grouping: Grouping,
                                       sort: Sort, unread: Unread)
    ensures multiset(Concat(TasksOf(Organize(tasks, project, grouping, sort, unread))))
         == multiset(Scoped(tasks, project))
  {
    hide KeyOf, IdsOf, Scoped, Filter, Sorted, InGroup, TitleFor, Concat, Retitled, Distinct;
    var scoped := Scoped(tasks, project);
    var key, ids := KeyOf(grouping, scoped), IdsOf(grouping, scoped);
    var plain, groups := GroupsFor(scoped, key, ids), Organize(tasks, project, grouping, sort, unread);
    IdsCover(grouping, scoped);
    PartsAddUp(scoped, key, ids);
    FilterAll(scoped, InAny(key, ids));
    assert |groups| == |plain|;
    forall i | 0 <= i < |groups|
      ensures multiset(groups[i].tasks) == multiset(plain[i].tasks)
    {
      GroupIsItsKind(tasks, project, grouping, sort, unread, i);
    }
    hide Organize, GroupsFor;
    ConcatPermutes(TasksOf(groups), TasksOf(plain));
  }

  // A task is of the project it was cut from, or else of the folder it runs in.
  predicate OfProject(task: Task, project: string) {
    task.origin == Some(project) || (task.origin == None && task.cwd == project)
  }

  // A project filter keeps the project's tasks, in order, while there are any, and otherwise
  // hides nothing.
  lemma {:induction false} WhatIsInScope(tasks: seq<Task>, project: Option<string>)
    ensures Scoped(tasks, project) ==
            if project.Some? && exists task :: task in tasks && OfProject(task, project.value)
            then Filter(tasks, (task: Task) => OfProject(task, project.value)) else tasks
  {
    if project.Some? {
      var mine := Filter(tasks, InProject(project.value));
      FilterAgrees(tasks, InProject(project.value), (task: Task) => OfProject(task, project.value));
      assert mine != [] ==> mine[0] in mine && OfProject(mine[0], project.value);
      if task :| task in tasks && OfProject(task, project.value) {
        assert task in mine;
      }
    }
  }

  // Which group a task is listed in: the one list there is, its project's, that of the task its
  // parents lead up to, or that of its state.
  lemma {:induction false} WhereATaskIsListed(tasks: seq<Task>, project: Option<string>, grouping: Grouping,
                                              sort: Sort, unread: Unread, i: nat, task: Task)
    requires i < |Organize(tasks, project, grouping, sort, unread)|
    ensures var scoped, group := Scoped(tasks, project), Organize(tasks, project, grouping, sort, unread)[i];
            task in group.tasks <==>
              && task in scoped
              && match grouping
                 case Ungrouped => group.id == "all"
                 case ByProject => OfProject(task, group.id)
                 case ByParent => RootOf(Indexed(scoped), task).id == group.id
                 case ByStatus => StateName(task.state) == group.id
  {
    hide Scoped, Sorted, Indexed, RootOf, Filter, StateName, Organize, KeyOf, IdsOf, OfProject;
    var scoped, group := Scoped(tasks, project), Organize(tasks, project, grouping, sort, unread)[i];
    GroupIsItsKind(tasks, project, grouping, sort, unread, i);
    var mine := Filter(scoped, InGroup(KeyOf(grouping, scoped), group.id));
    assert task in group.tasks <==> task in multiset(group.tasks);
    assert task in multiset(mine) <==> task in mine;
    KeysAre(grouping, scoped, task, group.id);
    assert grouping.Ungrouped? ==> IdsOf(grouping, scoped) == ["all"] by {
      TheOneList(grouping, scoped);
    }
  }

  lemma {:induction false} TheOneList(grouping: Grouping, tasks: seq<Task>)
    ensures grouping.Ungrouped? ==> IdsOf(grouping, tasks) == ["all"]
  {
  }

  lemma {:induction false} KeysAre(grouping: Grouping, tasks: seq<Task>, task: Task, id: string)
    ensures KeyOf(grouping, tasks)(task).0 == id <==>
              match grouping
              case Ungrouped => id == "all"
              case ByProject => OfProject(task, id)
              case ByParent => RootOf(Indexed(tasks), task).id == id
              case ByStatus => StateName(task.state) == id
  {
    hide Indexed, RootOf, StateName;
  }

  // The groups stand by priority of their state, or in the order in which tasks first come up;
  // a list that is not grouped has no title, nor has a task that is alone and has no parent.
  lemma {:induction false} HowGroupsAreTitled(tasks: seq<Task>, project: Option<string>, grouping: Grouping,
                                              sort: Sort, unread: Unread, i: nat)
    requires i < |Organize(tasks, project, grouping, sort, unread)|
    ensures var scoped, group := Scoped(tasks, project), Organize(tasks, project, grouping, sort, unread)[i];
            match grouping
            case Ungrouped => group.title == None && i == 0 && group.id == "all"
            case ByProject => group.title == Some(ProjectName(group.id))
            case ByStatus => exists state :: StateName(state) == group.id && group.title == Some(StateLabel(state))
            case ByParent =>
              if |group.tasks| == 1 && group.tasks[0].parent == None then group.title == None
              else exists task :: task in group.tasks && group.title == Some(RootOf(Indexed(scoped), task).heading)
  {
    hide Scoped, Organize, Filter, IdsOf, Indexed, RootOf, StateName, StateLabel, Sorted;
    var scoped, group := Scoped(tasks, project), Organize(tasks, project, grouping, sort, unread)[i];
    GroupIsItsKind(tasks, project, grouping, sort, unread, i);
    var key := KeyOf(grouping, scoped);
    var mine := Filter(scoped, InGroup(key, group.id));
    TitlesAre(scoped, key, group.id);
    TheOneList(grouping, scoped);
    TitledOrNot(tasks, project, grouping, sort, unread, i);
    if !grouping.Ungrouped? {
      FirstTask(mine, group.tasks);
      assert mine[0] in mine && key(mine[0]).0 == group.id;
    }
  }

  lemma {:induction false} TitledOrNot(tasks: seq<Task>, project: Option<string>, grouping: Grouping,
                                       sort: Sort, unread: Unread, i: nat)
    requires i < |Organize(tasks, project, grouping, sort, unread)|
    ensures var scoped, group := Scoped(tasks, project), Organize(tasks, project, grouping, sort, unread)[i];
            var mine := Filter(scoped, InGroup(KeyOf(grouping, scoped), group.id));
            group.title ==
            if grouping.Ungrouped? || (grouping.ByParent? && |mine| == 1 && mine[0].parent.None?) then None
            else TitleFor(scoped, KeyOf(grouping, scoped), group.id)
  {
    hide Scoped, KeyOf, IdsOf, Filter, TitleFor, Sorted;
  }

  lemma {:induction false} FirstTask(mine: seq<Task>, listed: seq<Task>)
    requires multiset(mine) == multiset(listed) && listed != []
    ensures mine != [] && mine[0] in listed && |mine| == |listed|
  {
    assert listed[0] in multiset(mine);
    assert mine[0] in multiset(listed);
    assert |multiset(mine)| == |multiset(listed)|;
  }

  // A group's title is the one its first task brings.
  lemma {:induction false} TitlesAre(tasks: seq<Task>, key: Key, id: string)
    ensures var mine := Filter(tasks, InGroup(key, id));
            TitleFor(tasks, key, id) == if mine == [] then None else Some(key(mine[0]).1)
  {
    if tasks != [] {
      TitlesAre(tasks[..|tasks| - 1], key, id);
    }
  }

  // However the list is grouped, sorted and filtered, its groups have different ids and
  // hold between them exactly the tasks in scope, each once; a group's tasks are those of
  // its kind, stably sorted.
  lemma {:induction false} EveryTaskIsListedOnce(tasks: seq<Task>, project: Option<string>, grouping: Grouping,
                                                 sort: Sort, unread: Unread)
    ensures var scoped, groups := Scoped(tasks, project), Organize(tasks, project, grouping, sort, unread);
            && multiset(Concat(TasksOf(groups))) == multiset(scoped)
            && (forall i, j :: 0 <= i < j < |groups| ==> groups[i].id != groups[j].id)
            && (forall group :: group in groups ==>
                  && group.count == |group.tasks|
                  && (grouping.Ungrouped? || group.tasks != [])
                  && group.tasks == Sorted(Filter(scoped, InGroup(KeyOf(grouping, scoped), group.id)), sort, unread))
  {
    var groups := Organize(tasks, project, grouping, sort, unread);
    GroupsAddUp(tasks, project, grouping, sort, unread);
    IdsCover(grouping, Scoped(tasks, project));
    hide *;
    forall i | 0 <= i < |groups|
      ensures var scoped, group := Scoped(tasks, project), groups[i];
              && i < |IdsOf(grouping, scoped)| && group.id == IdsOf(grouping, scoped)[i]
              && group.count == |group.tasks|
              && (grouping.Ungrouped? || group.tasks != [])
              && group.tasks == Sorted(Filter(scoped, InGroup(KeyOf(grouping, scoped), group.id)), sort, unread)
    {
      GroupIsItsKind(tasks, project, grouping, sort, unread, i);
    }
    DistinctAt(IdsOf(grouping, Scoped(tasks, project)));
  }

  lemma {:induction false} DistinctAt(ids: seq<string>)
    requires Distinct(ids)
    ensures forall i, j :: 0 <= i < j < |ids| ==> ids[i] != ids[j]
  {
  }
}
