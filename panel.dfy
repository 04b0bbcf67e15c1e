/**
 * The tool-window panel: its state machine, the selection edits behind the
 * project tree and the group buttons, the dependency closure used when a
 * project is checked, and the argument collector of the command forms.
 *
 * Background work (`Task.Backgroundable`) and `invokeLater` hops run in
 * sequence here: what the bleep CLI returned is an input of the method that
 * handles it.
 */
module Panel {
  import opened KotlinStd
  import opened ProjectData
  import opened Service
  import opened Layout

  // ---------------------------------------------------------------------------
  // The state machine
  // ---------------------------------------------------------------------------

  datatype PanelState = INITIALIZING | LOADING | READY | DIRTY | APPLYING | ERROR

  /** READY means nothing is pending, DIRTY means something is. */
  predicate ConsistentState(state: PanelState, dirty: bool) {
    (state == READY ==> !dirty) && (state == DIRTY ==> dirty)
  }

  /**
   * `checkDirtyState`, where `dirty` says whether the selection differs from
   * the applied one.
   */
  function DirtyChecked(state: PanelState, dirty: bool): (r: PanelState)
    // no change while an operation runs, and never out of ERROR
    ensures state in {APPLYING, LOADING, INITIALIZING, PanelState.ERROR} ==> r == state
    // READY and DIRTY follow the comparison, in both directions
    ensures state in {READY, DIRTY} ==> (r == DIRTY <==> dirty) && (r == READY <==> !dirty)
    // afterwards READY and DIRTY agree with the comparison, whatever the state was
    ensures ConsistentState(r, dirty)
  {
    if state == APPLYING || state == LOADING || state == INITIALIZING then state
    else if dirty && state != DIRTY && state != PanelState.ERROR then DIRTY
    else if !dirty && state == DIRTY then READY
    else state
  }

  /** Checking twice changes nothing more than checking once. */
  lemma DirtyCheckedIdempotent(state: PanelState, dirty: bool)
    ensures DirtyChecked(DirtyChecked(state, dirty), dirty) == DirtyChecked(state, dirty)
  {
  }

  /** The state `clearError` returns to. */
  function ClearedState(dirty: bool): (r: PanelState)
    ensures r in {READY, DIRTY}
    ensures ConsistentState(r, dirty)
  {
    if dirty then DIRTY else READY
  }

  const GraphMissingMessage := "Failed to load project graph from bleep CLI"
  const LoadFailedPrefix := "Failed to load projects: "
  const SetupFailedMessage := "Failed to setup IDE"

  /** `"Failed to load projects: ${e.message}"`; a null message prints as `null`. */
  function LoadFailedMessage(message: Option<string>): (r: string)
    ensures StartsWith(r, LoadFailedPrefix)
    ensures message.Some? ==> r[|LoadFailedPrefix|..] == message.value
    ensures message.None? ==> r[|LoadFailedPrefix|..] == "null"
  {
    LoadFailedPrefix + (if message.Some? then message.value else "null")
  }

  // ---------------------------------------------------------------------------
  // The dependency closure (`collectDependencies`)
  // ---------------------------------------------------------------------------

  /** Every known project of `s` outside `acc` has all its `dependsOn` entries in `s`. */
  ghost predicate ClosedOutside(byName: map<string, ProjectInfo>, acc: set<string>, s: set<string>) {
    forall n, d | n in s && n !in acc && n in byName && d in byName[n].dependsOn :: d in s
  }

  /**
   * `c` is the dependency closure of `starts`: it holds them, holds every
   * `dependsOn` entry of every known project in it, and is the least such set.
   */
  ghost predicate IsClosure(byName: map<string, ProjectInfo>, starts: set<string>, c: set<string>) {
    starts <= c && ClosedOutside(byName, {}, c)
    && forall s | starts <= s && ClosedOutside(byName, {}, s) :: c <= s
  }

  /** The names a walk over `byName` can ever visit, besides where it starts. */
  ghost function Universe(byName: map<string, ProjectInfo>): set<string> {
    byName.Keys + set n, d | n in byName && d in byName[n].dependsOn :: d
  }

  /**
   * `collectDependencies(name, result)` with the set threaded through: a
   * name already in `acc` stops the walk, so cycles terminate.
   */
  method CollectDependencies(byName: map<string, ProjectInfo>, name: string, acc: set<string>) returns (res: set<string>)
    ensures acc + {name} <= res
    ensures ClosedOutside(byName, acc, res)
    ensures forall s | acc <= s && name in s && ClosedOutside(byName, acc, s) :: res <= s
    decreases Universe(byName) + {name} - acc
  {
    if name in acc {
      return acc;
    }
    res := acc + {name};
    if name in byName {
      var deps := byName[name].dependsOn;
      for i := 0 to |deps|
        invariant acc + {name} <= res
        invariant forall j | 0 <= j < i :: deps[j] in res
        invariant forall n, d | n in res && n !in acc && n != name && n in byName && d in byName[n].dependsOn :: d in res
        invariant forall s | acc <= s && name in s && ClosedOutside(byName, acc, s) :: res <= s
      {
        assert deps[i] in byName[name].dependsOn;
        assert deps[i] in Universe(byName);
        ghost var before := res;
        res := CollectDependencies(byName, deps[i], res);
        forall s | acc <= s && name in s && ClosedOutside(byName, acc, s)
          ensures res <= s
        {
          assert before <= s;
          assert deps[i] in s;
          assert ClosedOutside(byName, before, s);
        }
      }
    }
  }

  /** The closure of one name, started from an empty set, is its dependency closure. */
  lemma CollectedIsClosure(byName: map<string, ProjectInfo>, name: string, res: set<string>)
    requires {name} <= res && ClosedOutside(byName, {}, res)
    requires forall s | {} <= s && name in s && ClosedOutside(byName, {}, s) :: res <= s
    ensures IsClosure(byName, {name}, res)
  {
    forall s | {name} <= s && ClosedOutside(byName, {}, s) ensures res <= s {
      assert name in s;
    }
  }

  /** Closures of two start sets unite into the closure of their union. */
  lemma ClosureUnion(byName: map<string, ProjectInfo>, a: set<string>, ca: set<string>, b: set<string>, cb: set<string>)
    requires IsClosure(byName, a, ca) && IsClosure(byName, b, cb)
    ensures IsClosure(byName, a + b, ca + cb)
  {
    forall s | a + b <= s && ClosedOutside(byName, {}, s) ensures ca + cb <= s {
      assert a <= s && b <= s;
    }
  }

  /** A set has one closure. */
  lemma ClosureUnique(byName: map<string, ProjectInfo>, starts: set<string>, c1: set<string>, c2: set<string>)
    requires IsClosure(byName, starts, c1) && IsClosure(byName, starts, c2)
    ensures c1 == c2
  {
    assert c1 <= c2;
    assert c2 <= c1;
  }

  // ---------------------------------------------------------------------------
  // Groups
  // ---------------------------------------------------------------------------

  /** The base name `isCrossProjectGroup` uses: the text before an `@` at index > 0. */
  function BaseNameOf(name: string): (r: string)
    ensures IndexOfChar(name, '@') > 0 ==> r == name[..IndexOfChar(name, '@')]
    ensures IndexOfChar(name, '@') <= 0 ==> r == name
  {
    var k := IndexOfChar(name, '@');
    if k > 0 then name[..k] else name
  }

  /** It agrees with `projectName` except on names that start with `@`. */
  lemma BaseNameOfAgrees(p: ProjectInfo)
    ensures |p.name| == 0 || p.name[0] != '@' ==> BaseNameOf(p.name) == ProjectName(p)
    ensures |p.name| > 0 && p.name[0] == '@' ==> BaseNameOf(p.name) == p.name && ProjectName(p) == ""
  {
  }

  /** `isCrossProjectGroup`: at most one member, or one base name among all members. */
  predicate IsCrossProjectGroup(group: GroupInfo) {
    |group.projects| <= 1 || |set n | n in group.projects :: BaseNameOf(n)| == 1
  }

  /** Every two members have the same base name. */
  predicate SameBase(ps: seq<string>) {
    forall i, j | 0 <= i < |ps| && 0 <= j < |ps| :: BaseNameOf(ps[i]) == BaseNameOf(ps[j])
  }

  /** A group is a cross-project group exactly when all its members share a base name. */
  lemma CrossProjectGroupMeans(group: GroupInfo)
    ensures IsCrossProjectGroup(group) <==> SameBase(group.projects)
  {
    var ps := group.projects;
    if |ps| > 1 {
      if SameBase(ps) {
        OneBaseName(ps, BaseNameOf(ps[0]));
      } else {
        var i, j :| 0 <= i < |ps| && 0 <= j < |ps| && BaseNameOf(ps[i]) != BaseNameOf(ps[j]);
        MixedBases(ps, i, j);
      }
    }
  }

  /** Two members with different base names give more than one base name. */
  lemma MixedBases(ps: seq<string>, i: int, j: int)
    requires 0 <= i < |ps| && 0 <= j < |ps| && BaseNameOf(ps[i]) != BaseNameOf(ps[j])
    ensures |set n | n in ps :: BaseNameOf(n)| != 1
  {
    var bases := set n | n in ps :: BaseNameOf(n);
    assert ps[i] in ps && ps[j] in ps;
    assert BaseNameOf(ps[i]) in bases && BaseNameOf(ps[j]) in bases;
    if |bases| == 1 {
      SingletonHasOne(bases, BaseNameOf(ps[i]));
    }
  }

  lemma OneBaseName(ps: seq<string>, b: string)
    requires |ps| > 0 && forall i | 0 <= i < |ps| :: BaseNameOf(ps[i]) == b
    ensures (set n | n in ps :: BaseNameOf(n)) == {b}
  {
    var bases := set n | n in ps :: BaseNameOf(n);
    forall x | x in bases ensures x == b {
      var n :| n in ps && BaseNameOf(n) == x;
      var i :| 0 <= i < |ps| && ps[i] == n;
    }
    assert ps[0] in ps;
  }

  lemma SingletonHasOne(s: set<string>, b: string)
    requires |s| == 1 && b in s
    ensures s == {b}
  {
    assert |s - {b}| == 0;
  }

  /** `groups.filter { !isCrossProjectGroup(it) }`. */
  function ShownGroups(groups: seq<GroupInfo>): (r: seq<GroupInfo>)
    ensures |r| <= |groups|
  {
    if groups == [] then []
    else if IsCrossProjectGroup(groups[0]) then ShownGroups(groups[1..])
    else [groups[0]] + ShownGroups(groups[1..])
  }

  /** The shown groups are exactly the loaded groups that are not cross-project groups. */
  lemma {:induction false} ShownGroupsMembers(groups: seq<GroupInfo>)
    ensures forall x :: x in ShownGroups(groups) <==> x in groups && !IsCrossProjectGroup(x)
  {
    if groups != [] {
      ShownGroupsMembers(groups[1..]);
      assert groups == [groups[0]] + groups[1..];
    }
  }

  /** The filter keeps the groups' order: the shown groups of two parts are those of the first part, then those of the second. */
  lemma {:induction false} ShownGroupsAppend(a: seq<GroupInfo>, b: seq<GroupInfo>)
    ensures ShownGroups(a + b) == ShownGroups(a) + ShownGroups(b)
  {
    if a == [] {
      assert a + b == b;
    } else {
      assert (a + b)[0] == a[0] && (a + b)[1..] == a[1..] + b;
      ShownGroupsAppend(a[1..], b);
    }
  }

  /** The `All` button's group: every project name, in list order. */
  function AllGroup(projects: seq<ProjectInfo>): (r: GroupInfo)
    ensures r.name == "All"
    ensures ToSet(r.projects) == set p | p in projects :: p.name
  {
    var r := GroupInfo("All", Names(projects));
    assert forall p | p in projects :: p.name in ToSet(r.projects) by {
      forall p | p in projects ensures p.name in ToSet(r.projects) {
        var i :| 0 <= i < |projects| && projects[i] == p;
        assert r.projects[i] == p.name;
      }
    }
    r
  }

  // ---------------------------------------------------------------------------
  // The panel
  // ---------------------------------------------------------------------------

  /**
   * The top-level nodes under the `Projects` root: the reached roots laid
   * out by the unlocking rule, followed by the fallback roots.
   */
  ghost predicate ForestShows(g: Graph, selected: set<string>, forest: seq<TreeNode>) {
    exists reached, fallback | forest == reached + fallback :: ProjectTree(g, selected, reached, fallback)
  }

  /** The forest shows every project, checked exactly when selected. */
  lemma ForestShowsEveryProject(g: Graph, selected: set<string>, forest: seq<TreeNode>)
    requires ForestShows(g, selected, forest)
    ensures forall n :: n in FlatAll(forest) <==> n in Ids(g)
    ensures NoDuplicates(Names(g.projects)) ==> NoDuplicates(FlatAll(forest))
    ensures forall i | 0 <= i < |forest| :: forest[i].checked == (forest[i].name in selected)
  {
    var reached, fallback :| forest == reached + fallback && ProjectTree(g, selected, reached, fallback);
    forall i | 0 <= i < |forest| ensures forest[i].checked == (forest[i].name in selected) {
      if i < |reached| {
        assert forest[i] == reached[i];
        assert WellLaidOut(g, selected, reached[i]);
      } else {
        assert forest[i] == fallback[i - |reached|];
      }
    }
  }

  /** The reached roots followed by the fallback roots, as `populateProjectTree` adds them. */
  method LayOutForest(g: Graph, selected: set<string>) returns (forest: seq<TreeNode>)
    requires WellFormed(g)
    ensures ForestShows(g, selected, forest)
  {
    var reached, fallback := Layout.PopulateProjectTree(g, selected);
    forest := reached + fallback;
  }

  /** What the background part of `refreshProjects` produced. */
  datatype Load =
    | LoadThrew(message: Option<string>)   // an exception, with its message
    | Loaded(graph: Option<seq<ProjectInfo>>, groupsData: Option<seq<GroupInfo>>, saved: set<string>)

  class ToolWindowPanel {
    const service: BleepService
    var state: PanelState
    var allProjects: seq<ProjectInfo>
    var groups: seq<GroupInfo>
    var projectByName: map<string, ProjectInfo>
    var dependents: map<string, set<string>>
    var appliedSelection: set<string>
    var currentError: Option<string>
    /** The top-level nodes under the tree's `Projects` root. */
    var tree: seq<TreeNode>

    /** The indexes are those of `allProjects`. */
    ghost predicate Indexed()
      reads this`allProjects, this`projectByName, this`dependents
    {
      IsIndexOf(projectByName, allProjects) && IsReverseIndex(dependents, allProjects)
    }

    /** READY and DIRTY say whether the selection differs from the applied one. */
    ghost predicate Consistent()
      reads this`state, this`appliedSelection, service`selected
    {
      ConsistentState(state, service.selected != appliedSelection)
    }

    ghost predicate Valid()
      reads this, service
    {
      Indexed() && Consistent()
    }

    function GraphOf(): Graph
      reads this`allProjects, this`projectByName, this`dependents
    {
      Graph(allProjects, projectByName, dependents)
    }

    /** The tree shows every project, each once when names are distinct, checked when selected. */
    ghost predicate TreeShows(selected: set<string>)
      reads this`allProjects, this`projectByName, this`dependents, this`tree
    {
      ForestShows(GraphOf(), selected, tree)
    }

    /** The panel before `init` calls `refreshProjects`. */
    constructor (service: BleepService)
      ensures this.service == service
      ensures state == INITIALIZING && currentError == None
      ensures allProjects == [] && groups == [] && tree == [] && appliedSelection == {}
      ensures Valid()
    {
      this.service := service;
      state := INITIALIZING;
      allProjects := [];
      groups := [];
      projectByName := map[];
      dependents := map[];
      appliedSelection := {};
      currentError := None;
      tree := [];
    }

    method CheckDirtyState()
      modifies this`state
      ensures state == DirtyChecked(old(state), service.selected != appliedSelection)
      ensures Consistent()
    {
      if state == APPLYING || state == LOADING || state == INITIALIZING {
        return;
      }
      var isDirty := service.selected != appliedSelection;
      if isDirty && state != DIRTY && state != PanelState.ERROR {
        state := DIRTY;
      } else if !isDirty && state == DIRTY {
        state := READY;
      }
    }

    /** `updateCountLabel`: the label text is left out; the dirty check remains. */
    method UpdateCountLabel()
      modifies this`state
      ensures state == DirtyChecked(old(state), service.selected != appliedSelection)
      ensures Consistent()
    {
      CheckDirtyState();
    }

    /** `showError`, state part. */
    method ShowError(message: string)
      modifies this`currentError, this`state
      ensures currentError == Some(message) && state == PanelState.ERROR
      ensures Consistent()
    {
      currentError := Some(message);
      state := PanelState.ERROR;
    }

    /** `clearError`: back to DIRTY or READY by the comparison, from any state. */
    method ClearError()
      modifies this`currentError, this`state
      ensures currentError == None
      ensures state == ClearedState(service.selected != appliedSelection)
      ensures Consistent()
    {
      currentError := None;
      if service.selected != appliedSelection {
        state := DIRTY;
      } else {
        state := READY;
      }
    }

    /** `selectWithDependencies`: the selection grows by the closure of `name`, nothing is removed. */
    method SelectWithDependencies(name: string) returns (ghost added: set<string>)
      modifies service`selected
      ensures IsClosure(projectByName, {name}, added)
      ensures service.selected == old(service.selected) + added
    {
      var toSelect := CollectDependencies(projectByName, name, {});
      CollectedIsClosure(projectByName, name, toSelect);
      added := toSelect;
      var rest := toSelect;
      while rest != {}
        invariant rest <= toSelect
        invariant service.selected == old(service.selected) + (toSelect - rest)
        decreases rest
      {
        var x :| x in rest;
        var current := service.GetSelectedProjects();
        service.SetSelectedProjects(current + {x});
        rest := rest - {x};
      }
    }

    /** `deselectSingleProject`: only `name` leaves the selection. */
    method DeselectSingleProject(name: string)
      modifies service`selected
      ensures service.selected == old(service.selected) - {name}
    {
      var current := service.GetSelectedProjects();
      service.SetSelectedProjects(current - {name});
    }

    /**
     * `toggleGroup`: when every member is selected, exactly the members
     * leave; otherwise the closures of all members join. Then the dirty check.
     */
    method ToggleGroup(group: GroupInfo) returns (ghost added: set<string>)
      modifies service`selected, this`state
      ensures (forall p | p in group.projects :: p in old(service.selected)) ==>
                service.selected == old(service.selected) - ToSet(group.projects)
      ensures !(forall p | p in group.projects :: p in old(service.selected)) ==>
                IsClosure(projectByName, ToSet(group.projects), added)
                && service.selected == old(service.selected) + added
      ensures state == DirtyChecked(old(state), service.selected != appliedSelection)
      ensures Consistent()
    {
      var selected := service.GetSelectedProjects();
      var ps := group.projects;
      added := {};
      if forall p | p in ps :: p in selected {
        for i := 0 to |ps|
          invariant service.selected == selected - ToSet(ps[..i])
          invariant state == old(state)
        {
          assert ToSet(ps[..i + 1]) == ToSet(ps[..i]) + {ps[i]} by {
            assert ps[..i + 1] == ps[..i] + [ps[i]];
          }
          DeselectSingleProject(ps[i]);
        }
      } else {
        for i := 0 to |ps|
          invariant IsClosure(projectByName, ToSet(ps[..i]), added)
          invariant service.selected == selected + added
          invariant state == old(state)
        {
          assert ToSet(ps[..i + 1]) == ToSet(ps[..i]) + {ps[i]} by {
            assert ps[..i + 1] == ps[..i] + [ps[i]];
          }
          var a := SelectWithDependencies(ps[i]);
          ClosureUnion(projectByName, ToSet(ps[..i]), added, {ps[i]}, a);
          added := added + a;
        }
      }
      assert ps[..|ps|] == ps;
      UpdateCountLabel();
    }

    /**
     * `onNodeStateChanged`: checking a node selects its closure, unchecking
     * it removes that one project; then the dirty check.
     */
    method OnNodeStateChanged(name: string, isChecked: bool) returns (ghost added: set<string>)
      modifies service`selected, this`state
      ensures isChecked ==> IsClosure(projectByName, {name}, added)
                            && service.selected == old(service.selected) + added
      ensures !isChecked ==> service.selected == old(service.selected) - {name}
      ensures state == DirtyChecked(old(state), service.selected != appliedSelection)
      ensures Consistent()
    {
      added := {};
      if isChecked {
        added := SelectWithDependencies(name);
      } else {
        DeselectSingleProject(name);
      }
      UpdateCountLabel();
    }

    /** `buildDependencyMaps`. */
    method BuildDependencyMaps()
      modifies this`projectByName, this`dependents
      ensures Indexed()
    {
      projectByName := AssociateByName(allProjects);
      dependents := ReverseIndex(allProjects);
    }

    /** `populateProjectTree`: the forest laid out by the project graph. */
    method PopulateProjectTree(selected: set<string>)
      requires Indexed()
      modifies this`tree
      ensures TreeShows(selected)
    {
      IndexesWellFormed(allProjects, projectByName, dependents);
      tree := LayOutForest(GraphOf(), selected);
    }

    /** `selectAll`: every project selected, the tree rebuilt, the dirty check. */
    method SelectAll()
      requires Valid()
      modifies service`selected, this`tree, this`state
      ensures service.selected == ToSet(Names(allProjects))
      ensures TreeShows(service.selected)
      ensures state == DirtyChecked(old(state), service.selected != appliedSelection)
      ensures Valid()
    {
      service.SetSelectedProjects(ToSet(Names(allProjects)));
      var current := service.GetSelectedProjects();
      PopulateProjectTree(current);
      UpdateCountLabel();
    }

    /** `deselectAll`: nothing selected, the tree rebuilt, the dirty check. */
    method DeselectAll()
      requires Valid()
      modifies service`selected, this`tree, this`state
      ensures service.selected == {}
      ensures TreeShows({})
      ensures state == DirtyChecked(old(state), service.selected != appliedSelection)
      ensures Valid()
    {
      service.SetSelectedProjects({});
      var current := service.GetSelectedProjects();
      PopulateProjectTree(current);
      UpdateCountLabel();
    }

    /**
     * `refreshProjects`. A failure leaves PanelState.ERROR with its message; a loaded
     * graph leaves READY with the applied selection equal to the current one.
     */
    method RefreshProjects(load: Load)
      requires Valid()
      modifies this`state, this`tree, this`currentError, this`allProjects, this`projectByName, this`dependents
      modifies this`groups, this`appliedSelection, service`selected
      ensures Valid()
      ensures load.LoadThrew? ==>
        && state == PanelState.ERROR && currentError == Some(LoadFailedMessage(load.message))
        && service.selected == old(service.selected) && tree == []
        && allProjects == old(allProjects) && projectByName == old(projectByName) && dependents == old(dependents)
        && groups == old(groups) && appliedSelection == old(appliedSelection)
      ensures load.Loaded? ==>
        service.selected == (if load.saved != {} then load.saved else old(service.selected))
      ensures load.Loaded? && load.graph.None? ==>
        && state == PanelState.ERROR && currentError == Some(GraphMissingMessage) && tree == []
        && allProjects == old(allProjects) && projectByName == old(projectByName) && dependents == old(dependents)
        && groups == old(groups) && appliedSelection == old(appliedSelection)
      ensures load.Loaded? && load.graph.Some? ==>
        && state == READY && currentError == old(currentError)
        && allProjects == load.graph.value
        && appliedSelection == service.selected
        && TreeShows(service.selected)
        && groups == (if load.groupsData.Some? then ShownGroups(load.groupsData.value) else old(groups))
    {
      state := LOADING;
      tree := [];
      match load
      case LoadThrew(message) =>
        ShowError(LoadFailedMessage(message));
      case Loaded(graph, groupsData, saved) =>
        ShowLoaded(graph, groupsData, saved);
    }

    /**
     * What `refreshProjects` does once loading has not thrown: a saved
     * selection replaces the current one; a missing graph is an error;
     * otherwise the projects are shown with the current selection.
     */
    method ShowLoaded(graph: Option<seq<ProjectInfo>>, groupsData: Option<seq<GroupInfo>>, saved: set<string>)
      requires Indexed() && state == LOADING && tree == []
      modifies this`state, this`tree, this`currentError, this`allProjects, this`projectByName, this`dependents
      modifies this`groups, this`appliedSelection, service`selected
      ensures Valid()
      ensures service.selected == (if saved != {} then saved else old(service.selected))
      ensures graph.None? ==>
        && state == PanelState.ERROR && currentError == Some(GraphMissingMessage) && tree == []
        && allProjects == old(allProjects) && projectByName == old(projectByName) && dependents == old(dependents)
        && groups == old(groups) && appliedSelection == old(appliedSelection)
      ensures graph.Some? ==>
        && state == READY && currentError == old(currentError)
        && allProjects == graph.value
        && appliedSelection == service.selected
        && TreeShows(service.selected)
        && groups == (if groupsData.Some? then ShownGroups(groupsData.value) else old(groups))
    {
      if saved != {} {
        service.SetSelectedProjects(saved);
      }
      var selected := service.GetSelectedProjects();
      if graph.None? {
        ShowError(GraphMissingMessage);
      } else {
        ShowProjects(graph.value, groupsData, selected);
      }
    }

    /** The part of `refreshProjects` that runs once the graph has arrived. */
    method ShowProjects(projects: seq<ProjectInfo>, groupsData: Option<seq<GroupInfo>>, selected: set<string>)
      requires state == LOADING && service.selected == selected
      modifies this`allProjects, this`projectByName, this`dependents, this`tree, this`groups
      modifies this`appliedSelection, this`state
      ensures Valid()
      ensures state == READY && allProjects == projects && appliedSelection == selected
      ensures TreeShows(selected)
      ensures groups == (if groupsData.Some? then ShownGroups(groupsData.value) else old(groups))
    {
      ShowGraph(projects, selected);
      if groupsData.Some? {
        groups := ShownGroups(groupsData.value);
      }
      appliedSelection := selected;
      UpdateCountLabel();
      state := READY;
    }

    /** The graph arrives: the projects are indexed and the tree is laid out from them. */
    method ShowGraph(projects: seq<ProjectInfo>, selected: set<string>)
      modifies this`allProjects, this`projectByName, this`dependents, this`tree
      ensures Indexed() && allProjects == projects
      ensures TreeShows(selected)
    {
      allProjects := projects;
      BuildDependencyMaps();
      PopulateProjectTree(selected);
    }

    /**
     * `onSetupIde`, with the inputs of `BleepService.setupIde`. Success
     * applies the selection the service ends with; failure shows the
     * service's message.
     */
    method OnSetupIde(bleep: BleepResult, graph: Option<seq<ProjectInfo>>, command: CommandResult, bsp: BspRefresh)
      requires Valid()
      modifies this`state, this`appliedSelection, this`currentError
      modifies service`selected, service`persisted, service`bspStatus
      ensures Valid()
      ensures var ok := bleep.Success? && service.hasBasePath && command.success && Connected(bsp);
        && (ok ==> state == READY && appliedSelection == service.selected && currentError == old(currentError))
        && (!ok ==> state == PanelState.ERROR && appliedSelection == old(appliedSelection))
      ensures bleep.Error? ==> currentError == Some(bleep.message) && service.selected == old(service.selected)
      ensures bleep.Success? && !service.hasBasePath ==> currentError == Some("Project base path not found")
      ensures bleep.Success? && service.hasBasePath && !command.success ==>
        currentError == Some(if command.errorMessage.Some? then command.errorMessage.value else "bleep setup-ide failed")
      ensures bleep.Success? && service.hasBasePath && command.success && !Connected(bsp) ==>
        currentError == Some(RefreshError(bsp))
      ensures bleep.Success? ==> service.selected == StaleFiltered(old(service.selected), set n | n in CrossProjectNames(graph))
      ensures service.hasBasePath ==> Ascending(service.persisted) && ListsExactly(service.persisted, service.selected)
      ensures !service.hasBasePath ==> service.persisted == old(service.persisted)
      ensures bleep.Error? || !service.hasBasePath ==> service.bspStatus == old(service.bspStatus)
      ensures bleep.Success? && service.hasBasePath ==>
        service.bspStatus == (if !command.success then BspStatus.ERROR
                              else if Connected(bsp) then CONNECTED
                              else if bsp.RefreshThrew? then CONFIGURED else BspStatus.ERROR)
    {
      state := APPLYING;
      var done, _ := service.SetupIde(bleep, graph, command, bsp);
      if done.success {
        appliedSelection := service.GetSelectedProjects();
        state := READY;
      } else {
        ShowError(if done.message.Some? then done.message.value else SetupFailedMessage);
      }
    }
  }

  // ---------------------------------------------------------------------------
  // The argument collector of the command forms
  // ---------------------------------------------------------------------------

  /** The flags whose getter is on, in order. */
  function SetFlags(flags: seq<(string, bool)>): seq<string> {
    if flags == [] then []
    else SetFlags(flags[..|flags| - 1]) + (if flags[|flags| - 1].1 then [flags[|flags| - 1].0] else [])
  }

  /** The values that are not blank, in order. */
  function NonBlankValues(values: seq<string>): seq<string> {
    if values == [] then []
    else NonBlankValues(values[..|values| - 1]) + (if IsBlank(values[|values| - 1]) then [] else [values[|values| - 1]])
  }

  /** What `collectArgs` returns for the getters' current results. */
  function CollectedArgs(flags: seq<(string, bool)>, flaggedValues: seq<seq<string>>,
                         values: seq<string>, multiValues: seq<seq<string>>): seq<string> {
    SetFlags(flags) + Flatten(flaggedValues) + NonBlankValues(values) + Flatten(multiValues)
  }

  lemma {:induction false} SetFlagsMeans(flags: seq<(string, bool)>, x: string)
    ensures x in SetFlags(flags) <==> (x, true) in flags
  {
    if flags != [] {
      var init := flags[..|flags| - 1];
      SetFlagsMeans(init, x);
      assert flags == init + [flags[|flags| - 1]];
    }
  }

  lemma {:induction false} NonBlankValuesMeans(values: seq<string>, x: string)
    ensures x in NonBlankValues(values) <==> x in values && !IsBlank(x)
  {
    if values != [] {
      var init := values[..|values| - 1];
      NonBlankValuesMeans(init, x);
      assert values == init + [values[|values| - 1]];
    }
  }

  lemma {:induction false} FlattenMeans(xss: seq<seq<string>>, x: string)
    ensures x in Flatten(xss) <==> exists j | 0 <= j < |xss| :: x in xss[j]
  {
    if xss != [] {
      FlattenMeans(xss[1..], x);
      if x in Flatten(xss[1..]) {
        var j :| 0 <= j < |xss[1..]| && x in xss[1..][j];
        assert x in xss[j + 1];
      }
      if exists j | 0 <= j < |xss| :: x in xss[j] {
        var j :| 0 <= j < |xss| && x in xss[j];
        if j > 0 {
          assert x in xss[1..][j - 1];
        }
      }
    }
  }

  /**
   * An argument is an enabled flag, an entry of a flagged-value or
   * multi-value list, or a non-blank single value; blank single values are
   * never passed.
   */
  lemma CollectedArgsMeans(flags: seq<(string, bool)>, flaggedValues: seq<seq<string>>,
                           values: seq<string>, multiValues: seq<seq<string>>, x: string)
    ensures x in CollectedArgs(flags, flaggedValues, values, multiValues) <==>
      || (x, true) in flags
      || (exists j | 0 <= j < |flaggedValues| :: x in flaggedValues[j])
      || (x in values && !IsBlank(x))
      || (exists j | 0 <= j < |multiValues| :: x in multiValues[j])
  {
    SetFlagsMeans(flags, x);
    FlattenMeans(flaggedValues, x);
    NonBlankValuesMeans(values, x);
    FlattenMeans(multiValues, x);
  }

  lemma FlattenSnoc(xss: seq<seq<string>>, i: int)
    requires 0 <= i < |xss|
    ensures Flatten(xss[..i + 1]) == Flatten(xss[..i]) + xss[i]
  {
    assert xss[..i + 1] == xss[..i] + [xss[i]];
    FlattenAppend(xss[..i], [xss[i]]);
    assert Flatten([xss[i]]) == xss[i] + Flatten([xss[i]][1..]);
  }

  /**
   * `ArgsCollector`. Each getter is represented by its current result:
   * `flags` pairs a flag with its getter's value, the lists stand for the
   * list getters, `values` for the single-value getters and `required` for
   * the required-field checks, all in insertion order.
   */
  class ArgsCollector {
    var flags: seq<(string, bool)>
    var flaggedValues: seq<seq<string>>
    var values: seq<string>
    var multiValues: seq<seq<string>>
    var required: seq<bool>

    constructor ()
      ensures flags == [] && flaggedValues == [] && values == [] && multiValues == [] && required == []
    {
      flags := [];
      flaggedValues := [];
      values := [];
      multiValues := [];
      required := [];
    }

    /** `isValid`: every required check passes. */
    method IsValid() returns (ok: bool)
      ensures ok <==> forall i | 0 <= i < |required| :: required[i]
    {
      for i := 0 to |required|
        invariant forall j | 0 <= j < i :: required[j]
      {
        if !required[i] {
          return false;
        }
      }
      return true;
    }

    /** `collectArgs`: flags, then flagged values, then non-blank values, then multi-values. */
    method CollectArgs() returns (result: seq<string>)
      ensures result == CollectedArgs(flags, flaggedValues, values, multiValues)
    {
      result := [];
      for i := 0 to |flags|
        invariant result == SetFlags(flags[..i])
      {
        assert flags[..i + 1][..i] == flags[..i];
        if flags[i].1 {
          result := result + [flags[i].0];
        }
      }
      assert flags[..|flags|] == flags;
      var prefix := result;
      for i := 0 to |flaggedValues|
        invariant result == prefix + Flatten(flaggedValues[..i])
      {
        FlattenSnoc(flaggedValues, i);
        result := result + flaggedValues[i];
      }
      assert flaggedValues[..|flaggedValues|] == flaggedValues;
      prefix := result;
      for i := 0 to |values|
        invariant result == prefix + NonBlankValues(values[..i])
      {
        assert values[..i + 1][..i] == values[..i];
        var v := values[i];
        if !IsBlank(v) {
          result := result + [v];
        }
      }
      assert values[..|values|] == values;
      prefix := result;
      for i := 0 to |multiValues|
        invariant result == prefix + Flatten(multiValues[..i])
      {
        FlattenSnoc(multiValues, i);
        result := result + multiValues[i];
      }
      assert multiValues[..|multiValues|] == multiValues;
    }
  }
}
