// How project groups nest under their folders (web/src/state/sidebar-projection.ts): two or
// more projects in one folder come under a heading, unless the folder is a project itself.
module ProjectTree {
  import opened Lists
  import opened Grouping

  datatype Node = Single(group: Group) | Folder(id: string, title: string, children: seq<Group>)

  function NodeId(node: Node): string {
    if node.Single? then node.group.id else node.id
  }

  // Where the last slash is; the length if there is none.
  function LastSlash(path: string): (i: nat)
    ensures i <= |path|
    ensures i < |path| ==> path[i] == '/'
    ensures forall j :: (if i < |path| then i + 1 else 0) <= j < |path| ==> path[j] != '/'
  {
    if path == "" then 0
    else if path[|path| - 1] == '/' then |path| - 1
    else
      var rest := LastSlash(path[..|path| - 1]);
      if rest == |path| - 1 then |path| else rest
  }

  function ParentDirectory(path: string): string {
    var trimmed := if |path| > 1 && path[|path| - 1] == '/' then path[..|path| - 1] else path;
    var slash := LastSlash(trimmed);
    if slash == |trimmed| || slash == 0 then path else trimmed[..slash]
  }

  // A project is in the folder before its last part, with one slash at its end or not; one that
  // is in no folder, or right under the root, counts as its own.
  lemma {:induction false} FoldersAre(folder: string, name: string)
    requires name != "" && '/' !in name
    ensures folder != "" ==> ParentDirectory(folder + "/" + name) == folder
    ensures folder != "" ==> ParentDirectory(folder + "/" + name + "/") == folder
    ensures ParentDirectory(name) == name && ParentDirectory(name + "/") == name + "/"
    ensures ParentDirectory("/" + name) == "/" + name && ParentDirectory("/" + name + "/") == "/" + name + "/"
    ensures ParentDirectory("/") == "/" && ParentDirectory("") == ""
  {
    hide ParentDirectory;
    if folder != "" {
      NestedFolder(folder, name);
    }
    OwnFolder(name);
    RootFolder(name);
  }

  lemma {:induction false} NestedFolder(folder: string, name: string)
    requires folder != "" && name != "" && '/' !in name
    ensures ParentDirectory(folder + "/" + name) == folder
    ensures ParentDirectory(folder + "/" + name + "/") == folder
  {
    hide LastSlash;
    LastSlashIs(folder, name);
    var path := folder + "/" + name;
    assert path[|path| - 1] == name[|name| - 1] && name[|name| - 1] in name;
    assert (path + "/")[..|path|] == path && path[..|folder|] == folder;
  }

  lemma {:induction false} OwnFolder(name: string)
    requires name != "" && '/' !in name
    ensures ParentDirectory(name) == name && ParentDirectory(name + "/") == name + "/"
  {
    hide LastSlash;
    NoSlash(name);
    assert name[|name| - 1] in name;
    assert (name + "/")[..|name|] == name;
  }

  lemma {:induction false} RootFolder(name: string)
    requires name != "" && '/' !in name
    ensures ParentDirectory("/" + name) == "/" + name && ParentDirectory("/" + name + "/") == "/" + name + "/"
    ensures ParentDirectory("/") == "/" && ParentDirectory("") == ""
  {
    LastSlashIs("", name);
    assert "" + "/" + name == "/" + name;
    assert ("/" + name)[|name|] == name[|name| - 1] && name[|name| - 1] in name;
    assert ("/" + name + "/")[..|name| + 1] == "/" + name;
    assert LastSlash("/") == 0;
  }

  lemma {:induction false} NoSlash(name: string)
    requires '/' !in name
    ensures LastSlash(name) == |name|
  {
    assert forall k :: 0 <= k < |name| ==> name[k] in name;
  }

  lemma {:induction false} LastSlashIs(folder: string, name: string)
    requires '/' !in name
    ensures LastSlash(folder + "/" + name) == |folder|
  {
    var path := folder + "/" + name;
    assert path[|folder|] == '/';
    forall k | |folder| < k < |path|
      ensures path[k] != '/'
    {
      assert path[k] == name[k - |folder| - 1] && name[k - |folder| - 1] in name;
    }
  }

  function InFolder(folder: string): Group -> bool {
    (group: Group) => ParentDirectory(group.id) == folder
  }

  predicate HasGroup(groups: seq<Group>, id: string) {
    exists group :: group in groups && group.id == id
  }

  // Whether the folder gets a heading.
  predicate Heads(groups: seq<Group>, folder: string) {
    |Filter(groups, InFolder(folder))| > 1 && !HasGroup(groups, folder)
  }

  // One of the first `n` groups is in the folder.
  predicate Seen(groups: seq<Group>, n: nat, folder: string)
    requires n <= |groups|
  {
    exists i :: 0 <= i < n && ParentDirectory(groups[i].id) == folder
  }

  // The nodes for the first `n` groups: a folder stands where its first project stood.
  function Tree(groups: seq<Group>, n: nat): seq<Node>
    requires n <= |groups|
  {
    if n == 0 then []
    else
      var group := groups[n - 1];
      var folder := ParentDirectory(group.id);
      var rest := Tree(groups, n - 1);
      if !Heads(groups, folder) then rest + [Single(group)]
      else if Seen(groups, n - 1, folder) then rest
      else rest + [Folder(folder, ProjectName(folder), Filter(groups, InFolder(folder)))]
  }

  method Build(groups: seq<Group>) returns (nodes: seq<Node>)
    ensures nodes == Tree(groups, |groups|)
    ensures DifferentIds(groups) ==> multiset(GroupsIn(nodes)) == multiset(groups)
  {
    hide InFolder, ParentDirectory, Filter, Heads, Seen, DifferentIds, GroupsIn;
    NoneSeen(groups);
    var groupIds, childrenByParent := ReadFolders(groups);
    var seenParents: set<string> := {};
    nodes := [];
    for i := 0 to |groups|
      invariant nodes == Tree(groups, i)
      invariant forall folder :: folder in seenParents <==> Heads(groups, folder) && Seen(groups, i, folder)
    {
      var group := groups[i];
      var parent := ParentDirectory(group.id);
      var siblings := ChildrenOf(childrenByParent, parent);
      HeadsIff(groups, parent);
      forall folder
        ensures Seen(groups, i + 1, folder) <==> Seen(groups, i, folder) || folder == parent
      {
        SeenGrows(groups, i + 1, folder);
      }
      if |siblings| <= 1 || parent in groupIds {
        nodes := nodes + [Single(group)];
        continue;
      }
      if parent in seenParents {
        continue;
      }
      seenParents := seenParents + {parent};
      nodes := nodes + [Folder(parent, ProjectName(parent), siblings)];
    }
    if DifferentIds(groups) {
      EveryGroupIsPlacedOnce(groups);
    }
  }

  // The first pass: the ids of the groups, and the groups of each folder.
  method ReadFolders(groups: seq<Group>) returns (groupIds: set<string>, childrenByParent: map<string, seq<Group>>)
    ensures forall id :: id in groupIds <==> HasGroup(groups, id)
    ensures forall folder :: ChildrenOf(childrenByParent, folder) == Filter(groups, InFolder(folder))
  {
    hide InFolder, ParentDirectory, Filter;
    NoChildren();
    assert groups[..0] == [];
    groupIds, childrenByParent := {}, map[];
    for i := 0 to |groups|
      invariant forall id :: id in groupIds <==> HasGroup(groups[..i], id)
      invariant forall folder :: ChildrenOf(childrenByParent, folder) == Filter(groups[..i], InFolder(folder))
    {
      var group := groups[i];
      var parent := ParentDirectory(group.id);
      groupIds := groupIds + {group.id};
      childrenByParent := childrenByParent[parent := ChildrenOf(childrenByParent, parent) + [group]];
      ghost var seen := groups[..i + 1];
      assert seen == groups[..i] + [group];
      forall folder
        ensures ChildrenOf(childrenByParent, folder) == Filter(seen, InFolder(folder))
      {
        FolderAdds(groups[..i], group, folder);
      }
    }
    assert groups[..|groups|] == groups;
  }

  lemma {:induction false} NoChildren()
    ensures forall folder :: ChildrenOf(map[], folder) == Filter([], InFolder(folder))
  {
  }

  lemma {:induction false} NoneSeen(groups: seq<Group>)
    ensures forall folder :: !Seen(groups, 0, folder)
  {
  }

  lemma {:induction false} HeadsIff(groups: seq<Group>, folder: string)
    ensures Heads(groups, folder) <==> |Filter(groups, InFolder(folder))| > 1 && !HasGroup(groups, folder)
  {
  }

  function ChildrenOf(children: map<string, seq<Group>>, folder: string): seq<Group> {
    if folder in children then children[folder] else []
  }

  lemma {:induction false} FolderAdds(groups: seq<Group>, group: Group, folder: string)
    ensures Filter(groups + [group], InFolder(folder))
         == Filter(groups, InFolder(folder)) + if ParentDirectory(group.id) == folder then [group] else []
  {
    FilterAdds(groups, group, InFolder(folder));
  }

  // --- What the tree keeps ---

  function GroupsIn(nodes: seq<Node>): seq<Group> {
    if nodes == [] then []
    else
      var last := nodes[|nodes| - 1];
      GroupsIn(nodes[..|nodes| - 1]) + if last.Single? then [last.group] else last.children
  }

  ghost predicate DifferentIds(groups: seq<Group>) {
    forall i, j :: 0 <= i < j < |groups| ==> groups[i].id != groups[j].id
  }

  // The groups placed once the first `n` are dealt with.
  function PlacedBy(groups: seq<Group>, n: nat): Group -> bool
    requires n <= |groups|
  {
    (group: Group) =>
      var folder := ParentDirectory(group.id);
      if Heads(groups, folder) then Seen(groups, n, folder) else group in groups[..n]
  }

  lemma {:induction false} NodeAdds(nodes: seq<Node>, node: Node)
    ensures GroupsIn(nodes + [node]) == GroupsIn(nodes) + if node.Single? then [node.group] else node.children
  {
    assert (nodes + [node])[..|nodes|] == nodes;
  }

  lemma {:induction false} SeenGrows(groups: seq<Group>, n: nat, folder: string)
    requires 0 < n <= |groups|
    ensures Seen(groups, n, folder) <==> Seen(groups, n - 1, folder) || ParentDirectory(groups[n - 1].id) == folder
  {
    hide ParentDirectory;
  }

  // What the next group places: itself, or everything in its folder.
  lemma {:induction false} PlacedGrows(groups: seq<Group>, n: nat, group: Group)
    requires 0 < n <= |groups|
    ensures var last := groups[n - 1];
            PlacedBy(groups, n)(group) <==>
              || PlacedBy(groups, n - 1)(group)
              || if Heads(groups, ParentDirectory(last.id)) then InFolder(ParentDirectory(last.id))(group)
                   else Is(last)(group)
  {
    hide Heads, ParentDirectory, Seen;
    SeenGrows(groups, n, ParentDirectory(group.id));
    assert groups[..n] == groups[..n - 1] + [groups[n - 1]];
  }

  lemma {:induction false} SinglePlaces(groups: seq<Group>, n: nat)
    requires DifferentIds(groups) && 0 < n <= |groups| && !Heads(groups, ParentDirectory(groups[n - 1].id))
    ensures multiset(Filter(groups, PlacedBy(groups, n)))
         == multiset(Filter(groups, PlacedBy(groups, n - 1))) + multiset{groups[n - 1]}
  {
    var group := groups[n - 1];
    hide Heads, ParentDirectory, Filter, Seen;
    assert !PlacedBy(groups, n - 1)(group);
    FilterOne(groups, group);
    hide PlacedBy;
    forall g | g in groups
      ensures !(PlacedBy(groups, n - 1)(g) && Is(group)(g))
      ensures PlacedBy(groups, n)(g) == (PlacedBy(groups, n - 1)(g) || Is(group)(g))
    {
      PlacedGrows(groups, n, g);
    }
    hide DifferentIds;
    FilterSplits(groups, PlacedBy(groups, n - 1), Is(group), PlacedBy(groups, n));
  }

  // Whether the folder of the next group is already in the tree.
  lemma {:induction false} FolderPlaces(groups: seq<Group>, n: nat, folder: string)
    requires 0 < n <= |groups| && folder == ParentDirectory(groups[n - 1].id) && Heads(groups, folder)
    ensures multiset(Filter(groups, PlacedBy(groups, n)))
         == multiset(Filter(groups, PlacedBy(groups, n - 1)))
          + if Seen(groups, n - 1, folder) then multiset{} else multiset(Filter(groups, InFolder(folder)))
  {
    hide Heads, ParentDirectory, Filter, Seen;
    forall g | g in groups
      ensures PlacedBy(groups, n)(g) == (PlacedBy(groups, n - 1)(g) || InFolder(folder)(g))
      ensures InFolder(folder)(g) ==> PlacedBy(groups, n - 1)(g) == Seen(groups, n - 1, folder)
    {
      PlacedGrows(groups, n, g);
    }
    hide PlacedBy;
    if Seen(groups, n - 1, folder) {
      FilterAgrees(groups, PlacedBy(groups, n - 1), PlacedBy(groups, n));
    } else {
      FilterSplits(groups, PlacedBy(groups, n - 1), InFolder(folder), PlacedBy(groups, n));
    }
  }

  lemma {:induction false} NothingPlaced(groups: seq<Group>)
    ensures Filter(groups, PlacedBy(groups, 0)) == [] == GroupsIn(Tree(groups, 0))
  {
    hide Heads, ParentDirectory;
    NoMembers(Filter(groups, PlacedBy(groups, 0)));
  }

  // The next step of the tree.
  lemma {:induction false} TreeGrows(groups: seq<Group>, n: nat, folder: string)
    requires 0 < n <= |groups| && folder == ParentDirectory(groups[n - 1].id)
    ensures GroupsIn(Tree(groups, n))
         == GroupsIn(Tree(groups, n - 1))
          + if !Heads(groups, folder) then [groups[n - 1]]
            else if Seen(groups, n - 1, folder) then [] else Filter(groups, InFolder(folder))
  {
    hide Heads, ParentDirectory, Filter, Seen, InFolder;
    var before := Tree(groups, n - 1);
    NodeAdds(before, Single(groups[n - 1]));
    NodeAdds(before, Folder(folder, ProjectName(folder), Filter(groups, InFolder(folder))));
    hide GroupsIn;
  }

  lemma {:induction false} TreePlaces(groups: seq<Group>, n: nat)
    requires DifferentIds(groups) && n <= |groups|
    ensures multiset(GroupsIn(Tree(groups, n))) == multiset(Filter(groups, PlacedBy(groups, n)))
  {
    hide Heads, ParentDirectory, Filter, PlacedBy, Seen, GroupsIn, InFolder, DifferentIds, Tree;
    if n == 0 {
      NothingPlaced(groups);
    } else {
      var folder := ParentDirectory(groups[n - 1].id);
      TreePlaces(groups, n - 1);
      TreeGrows(groups, n, folder);
      if Heads(groups, folder) {
        FolderPlaces(groups, n, folder);
      } else {
        SinglePlaces(groups, n);
      }
    }
  }

  // What every node is.
  ghost predicate WellPlaced(groups: seq<Group>, n: nat, node: Node)
    requires n <= |groups|
  {
    match node
    case Single(group) => exists i :: 0 <= i < n && groups[i] == group
    case Folder(id, title, children) =>
      && title == ProjectName(id) && Heads(groups, id) && children == Filter(groups, InFolder(id))
      && Seen(groups, n, id)
  }

  lemma {:induction false} NodesAreWellPlaced(groups: seq<Group>, n: nat)
    requires DifferentIds(groups) && n <= |groups|
    ensures forall node :: node in Tree(groups, n) ==> WellPlaced(groups, n, node)
    ensures forall i, j :: 0 <= i < j < |Tree(groups, n)| ==> NodeId(Tree(groups, n)[i]) != NodeId(Tree(groups, n)[j])
  {
    hide Heads, ParentDirectory, Filter, NodeId, Seen, WellPlaced, DifferentIds;
    if n > 0 {
      var group, before := groups[n - 1], Tree(groups, n - 1);
      var folder := ParentDirectory(group.id);
      NodesAreWellPlaced(groups, n - 1);
      forall node | node in before
        ensures WellPlaced(groups, n, node)
        ensures NodeId(node) != group.id
        ensures Heads(groups, folder) && !Seen(groups, n - 1, folder) ==> NodeId(node) != folder
      {
        NodesDiffer(groups, n, node);
      }
      NewNodes(groups, n);
    }
  }

  lemma {:induction false} NewNodes(groups: seq<Group>, n: nat)
    requires 0 < n <= |groups|
    ensures WellPlaced(groups, n, Single(groups[n - 1])) && NodeId(Single(groups[n - 1])) == groups[n - 1].id
    ensures var folder := ParentDirectory(groups[n - 1].id);
            var node := Folder(folder, ProjectName(folder), Filter(groups, InFolder(folder)));
            NodeId(node) == folder && (Heads(groups, folder) ==> WellPlaced(groups, n, node))
  {
    hide ParentDirectory, Filter;
  }

  // A node placed earlier has another id than the next group, or a folder not yet seen.
  lemma {:induction false} NodesDiffer(groups: seq<Group>, n: nat, node: Node)
    requires DifferentIds(groups) && 0 < n <= |groups| && WellPlaced(groups, n - 1, node)
    ensures WellPlaced(groups, n, node) && NodeId(node) != groups[n - 1].id
    ensures var folder := ParentDirectory(groups[n - 1].id);
            Heads(groups, folder) && !Seen(groups, n - 1, folder) ==> NodeId(node) != folder
  {
    hide ParentDirectory, Filter;
    assert groups[n - 1] in groups;
    if node.Single? {
      assert node.group in groups;
    }
  }

  // Every group is in the tree exactly once, no two nodes share an id, and a folder holds
  // all the projects in it, at least two, and is not a project.
  lemma {:induction false} EveryGroupIsPlacedOnce(groups: seq<Group>)
    requires DifferentIds(groups)
    ensures var nodes := Tree(groups, |groups|);
            && multiset(GroupsIn(nodes)) == multiset(groups)
            && (forall i, j :: 0 <= i < j < |nodes| ==> NodeId(nodes[i]) != NodeId(nodes[j]))
            && (forall node :: node in nodes && node.Folder? ==>
                  && !HasGroup(groups, node.id)
                  && |node.children| >= 2 && node.children == Filter(groups, InFolder(node.id)))
  {
    NodesAreWellPlaced(groups, |groups|);
    TreePlaces(groups, |groups|);
    assert groups[..|groups|] == groups;
    hide ParentDirectory, Filter;
    FilterAll(groups, PlacedBy(groups, |groups|));
  }
}
