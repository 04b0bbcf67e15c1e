/**
 * The dependency indexes of the tool-window panel and the "unlocking"
 * forest that `populateProjectTree` lays the projects out in.
 *
 * A project is placed as soon as every one of its in-graph dependencies has
 * been placed: under the project whose placement completed that set, or as a
 * root when it has none. Siblings and roots are ordered by descending number
 * of dependents, then by name. Projects that are never unlocked (they sit on
 * or behind a dependency cycle) are appended as childless roots at the end.
 */
module Layout {
  import opened KotlinStd
  import opened ProjectData

  // ---------------------------------------------------------------------------
  // `buildDependencyMaps`
  // ---------------------------------------------------------------------------

  /**
   * `associateBy { it.name }`: every name of the list is a key, and it maps
   * to the last project carrying that name.
   */
  predicate IsIndexOf(byName: map<string, ProjectInfo>, projects: seq<ProjectInfo>) {
    (forall i | 0 <= i < |projects| :: projects[i].name in byName)
    && forall n | n in byName :: LastNamed(projects, n, byName[n])
  }

  /** `p` is the last project of the list whose name is `n`. */
  predicate LastNamed(projects: seq<ProjectInfo>, n: string, p: ProjectInfo) {
    exists i | 0 <= i < |projects| :: projects[i] == p && p.name == n
      && forall j | i < j < |projects| :: projects[j].name != n
  }

  method AssociateByName(projects: seq<ProjectInfo>) returns (byName: map<string, ProjectInfo>)
    ensures IsIndexOf(byName, projects)
  {
    byName := map[];
    for k := 0 to |projects|
      invariant IsIndexOf(byName, projects[..k])
    {
      var p := projects[k];
      var prefix, next := projects[..k], projects[..k + 1];
      var updated := byName[p.name := p];
      assert next == prefix + [p];
      forall n | n in updated ensures LastNamed(next, n, updated[n]) {
        if n == p.name {
          assert next[k] == p;
        } else {
          var i :| 0 <= i < |prefix| && prefix[i] == byName[n] && byName[n].name == n
            && forall j | i < j < |prefix| :: prefix[j].name != n;
          assert next[i] == byName[n];
          assert forall j | i < j < |next| :: next[j].name != n by {
            forall j | i < j < |next| ensures next[j].name != n {
              if j < k { assert next[j] == prefix[j]; }
            }
          }
        }
      }
      forall i | 0 <= i < |next| ensures next[i].name in updated {
        if i < k { assert next[i] == prefix[i]; }
      }
      byName := updated;
    }
    assert projects[..|projects|] == projects;
  }

  /** Project `c` lists `d` among its dependencies, at some position of the list. */
  predicate DependsOnEdge(projects: seq<ProjectInfo>, d: string, c: string) {
    exists i, k | 0 <= i < |projects| && 0 <= k < |projects[i].dependsOn| ::
      projects[i].name == c && projects[i].dependsOn[k] == d
  }

  /**
   * The reverse index: `deps[d]` holds exactly the names of the projects that
   * depend on `d`, and an id is a key only when some project depends on it
   * (it need not be a project of the graph itself).
   */
  ghost predicate IsReverseIndex(deps: map<string, set<string>>, projects: seq<ProjectInfo>) {
    (forall d | d in deps :: deps[d] != {})
    && forall d, c :: (d in deps && c in deps[d]) <==> DependsOnEdge(projects, d, c)
  }

  /** `getOrPut(d) { mutableSetOf() }.add(c)` for each `d` of `ds`, in order. */
  function AddEdges(deps: map<string, set<string>>, c: string, ds: seq<string>): map<string, set<string>> {
    if ds == [] then deps else
      var before := AddEdges(deps, c, ds[..|ds| - 1]);
      var d := ds[|ds| - 1];
      before[d := (if d in before then before[d] else {}) + {c}]
  }

  /** The reverse index after the first `|ps|` projects. */
  function ReverseOf(ps: seq<ProjectInfo>): map<string, set<string>> {
    if ps == [] then map[] else
      var p := ps[|ps| - 1];
      AddEdges(ReverseOf(ps[..|ps| - 1]), p.name, p.dependsOn)
  }

  lemma {:induction false} AddEdgesKeepsNonEmpty(deps: map<string, set<string>>, c: string, ds: seq<string>)
    requires forall d | d in deps :: deps[d] != {}
    ensures forall d | d in AddEdges(deps, c, ds) :: AddEdges(deps, c, ds)[d] != {}
  {
    if ds != [] {
      AddEdgesKeepsNonEmpty(deps, c, ds[..|ds| - 1]);
    }
  }

  /** After the additions, `x` is listed under `d` iff it was before or `x` is `c` and `d` in `ds`. */
  lemma {:induction false} AddEdgesMeans(deps: map<string, set<string>>, c: string, ds: seq<string>, d: string, x: string)
    ensures (d in AddEdges(deps, c, ds) && x in AddEdges(deps, c, ds)[d]) <==>
      (d in deps && x in deps[d]) || (x == c && d in ds)
  {
    if ds != [] {
      var init, last := ds[..|ds| - 1], ds[|ds| - 1];
      AddEdgesMeans(deps, c, init, d, x);
      assert ds == init + [last];
      assert d in ds <==> d in init || d == last;
    }
  }

  lemma {:induction false} ReverseOfMeans(ps: seq<ProjectInfo>)
    ensures IsReverseIndex(ReverseOf(ps), ps)
  {
    if ps != [] {
      var init, p := ps[..|ps| - 1], ps[|ps| - 1];
      ReverseOfMeans(init);
      var before, r := ReverseOf(init), ReverseOf(ps);
      assert r == AddEdges(before, p.name, p.dependsOn);
      AddEdgesKeepsNonEmpty(before, p.name, p.dependsOn);
      forall d, c ensures (d in r && c in r[d]) <==> DependsOnEdge(ps, d, c) {
        AddEdgesMeans(before, p.name, p.dependsOn, d, c);
        assert (d in before && c in before[d]) <==> DependsOnEdge(init, d, c);
        EdgeOfLast(ps, d, c);
      }
    }
  }

  lemma EdgeOfLast(ps: seq<ProjectInfo>, d: string, c: string)
    requires ps != []
    ensures var init, p := ps[..|ps| - 1], ps[|ps| - 1];
      DependsOnEdge(ps, d, c) <==> DependsOnEdge(init, d, c) || (p.name == c && d in p.dependsOn)
  {
    var init, p := ps[..|ps| - 1], ps[|ps| - 1];
    if DependsOnEdge(ps, d, c) {
      var i, k :| 0 <= i < |ps| && 0 <= k < |ps[i].dependsOn| && ps[i].name == c && ps[i].dependsOn[k] == d;
      if i < |init| { assert init[i] == ps[i]; }
    }
    if DependsOnEdge(init, d, c) {
      var i, k :| 0 <= i < |init| && 0 <= k < |init[i].dependsOn| && init[i].name == c && init[i].dependsOn[k] == d;
      assert ps[i] == init[i];
    }
    if p.name == c && d in p.dependsOn {
      var k :| 0 <= k < |p.dependsOn| && p.dependsOn[k] == d;
      assert ps[|ps| - 1] == p;
    }
  }

  /** The nested `forEach` that fills the reverse index with `getOrPut(..).add(..)`. */
  method ReverseIndex(projects: seq<ProjectInfo>) returns (deps: map<string, set<string>>)
    ensures IsReverseIndex(deps, projects)
  {
    deps := map[];
    for n := 0 to |projects|
      invariant deps == ReverseOf(projects[..n])
    {
      var p := projects[n];
      ghost var start := deps;
      for m := 0 to |p.dependsOn|
        invariant deps == AddEdges(start, p.name, p.dependsOn[..m])
      {
        var dependency := p.dependsOn[m];
        assert p.dependsOn[..m + 1][..m] == p.dependsOn[..m];
        var known := if dependency in deps then deps[dependency] else {};
        deps := deps[dependency := known + {p.name}];
      }
      assert p.dependsOn[..|p.dependsOn|] == p.dependsOn;
      assert projects[..n + 1][..n] == projects[..n];
    }
    assert projects[..|projects|] == projects;
    ReverseOfMeans(projects);
  }

  // ---------------------------------------------------------------------------
  // The graph the layout works on
  // ---------------------------------------------------------------------------

  datatype Graph = Graph(projects: seq<ProjectInfo>, byName: map<string, ProjectInfo>, dependents: map<string, set<string>>)

  /** `projectNames`: the names of the graph's projects. */
  function Ids(g: Graph): set<string> {
    set p | p in g.projects :: p.name
  }

  /** `dependents[name] ?: emptySet()`. */
  function Dependents(g: Graph, n: string): set<string> {
    if n in g.dependents then g.dependents[n] else {}
  }

  /** `getInternalDeps`: the dependencies of the indexed project that are projects of the graph. */
  function InternalDeps(g: Graph, n: string): (r: set<string>)
    ensures r <= Ids(g)
  {
    if n in g.byName then set d | d in g.byName[n].dependsOn && d in Ids(g) else {}
  }

  /** `downstreamCount`: how many projects depend on each project. */
  function DownstreamCount(g: Graph): map<string, int> {
    map n | n in Ids(g) :: |Dependents(g, n)|
  }

  /** The indexes agree with each other as far as the layout relies on. */
  predicate WellFormed(g: Graph) {
    (forall d, c | d in g.dependents && c in g.dependents[d] :: c in Ids(g))
    && forall c, d | c in Ids(g) && d in InternalDeps(g, c) :: c in Dependents(g, d)
  }

  /** The indexes built by `buildDependencyMaps` are well formed. */
  lemma IndexesWellFormed(projects: seq<ProjectInfo>, byName: map<string, ProjectInfo>, deps: map<string, set<string>>)
    requires IsIndexOf(byName, projects) && IsReverseIndex(deps, projects)
    ensures WellFormed(Graph(projects, byName, deps))
  {
    var g := Graph(projects, byName, deps);
    forall d, c | d in deps && c in deps[d] ensures c in Ids(g) {
      assert DependsOnEdge(projects, d, c);
      var i, k :| 0 <= i < |projects| && 0 <= k < |projects[i].dependsOn| && projects[i].name == c && projects[i].dependsOn[k] == d;
      assert projects[i] in projects;
    }
    forall c, d | c in Ids(g) && d in InternalDeps(g, c) ensures c in Dependents(g, d) {
      assert LastNamed(projects, c, byName[c]);
      var i :| 0 <= i < |projects| && projects[i] == byName[c] && byName[c].name == c
        && forall j | i < j < |projects| :: projects[j].name != c;
      var k :| 0 <= k < |projects[i].dependsOn| && projects[i].dependsOn[k] == d;
      assert DependsOnEdge(projects, d, c);
    }
  }

  // ---------------------------------------------------------------------------
  // Trees
  // ---------------------------------------------------------------------------

  /** A `CheckedTreeNode`: the project name, its check box and its children. */
  datatype TreeNode = TreeNode(name: string, checked: bool, children: seq<TreeNode>)

  /** The names of a tree in the order the nodes were added (pre-order). */
  function Flat(t: TreeNode): seq<string>
    decreases t
  {
    [t.name] + FlatAll(t.children)
  }

  function FlatAll(ts: seq<TreeNode>): seq<string>
    decreases ts
  {
    if ts == [] then [] else Flat(ts[0]) + FlatAll(ts[1..])
  }

  lemma {:induction false} FlatAllAppend(ts: seq<TreeNode>, t: TreeNode)
    ensures FlatAll(ts + [t]) == FlatAll(ts) + Flat(t)
  {
    if ts == [] {
      assert [t][1..] == [];
      assert ts + [t] == [t];
    } else {
      assert (ts + [t])[0] == ts[0];
      assert (ts + [t])[1..] == ts[1..] + [t];
      FlatAllAppend(ts[1..], t);
    }
  }

  /**
   * Every node's check box says whether it is selected; each child is a
   * dependent of its parent; siblings come strictly in descending order of
   * dependents, then by name.
   */
  predicate WellLaidOut(g: Graph, selected: set<string>, t: TreeNode)
    decreases t
  {
    t.checked == (t.name in selected)
    && (forall i | 0 <= i < |t.children| :: t.children[i].name in Dependents(g, t.name))
    && (forall i, j | 0 <= i < j < |t.children| ::
          Before(DownstreamCount(g), t.children[i].name, t.children[j].name))
    && forall i | 0 <= i < |t.children| :: WellLaidOut(g, selected, t.children[i])
  }

  /**
   * Listed in dependency order: each name's in-graph dependencies were
   * listed before (in `before`, or earlier in `xs`).
   */
  predicate TopoOK(g: Graph, before: set<string>, xs: seq<string>) {
    forall k, d | 0 <= k < |xs| && d in InternalDeps(g, xs[k]) :: d in before || d in xs[..k]
  }

  lemma TopoAt(g: Graph, before: set<string>, xs: seq<string>, k: int, d: string)
    requires TopoOK(g, before, xs) && 0 <= k < |xs| && d in InternalDeps(g, xs[k])
    ensures d in before || d in xs[..k]
  {
  }

  lemma TopoAppend(g: Graph, before: set<string>, a: seq<string>, b: seq<string>)
    requires TopoOK(g, before, a) && TopoOK(g, before + ToSet(a), b)
    ensures TopoOK(g, before, a + b)
  {
    var ab := a + b;
    forall k, d | 0 <= k < |ab| && d in InternalDeps(g, ab[k]) ensures d in before || d in ab[..k] {
      if k < |a| {
        assert ab[k] == a[k] && ab[..k] == a[..k];
        assert d in InternalDeps(g, a[k]);
      } else {
        assert ab[k] == b[k - |a|];
        assert ab[..k] == a + b[..k - |a|];
        assert d in InternalDeps(g, b[k - |a|]);
        assert d in before + ToSet(a) || d in b[..k - |a|];
      }
    }
  }

  lemma TopoCons(g: Graph, before: set<string>, x: string, xs: seq<string>)
    requires InternalDeps(g, x) <= before && TopoOK(g, before + {x}, xs)
    ensures TopoOK(g, before, [x] + xs)
  {
    var s := [x] + xs;
    forall k, d | 0 <= k < |s| && d in InternalDeps(g, s[k]) ensures d in before || d in s[..k] {
      if k > 0 {
        assert s[k] == xs[k - 1];
        assert s[..k] == [x] + xs[..k - 1];
        assert d in InternalDeps(g, xs[k - 1]);
        assert d in before + {x} || d in xs[..k - 1];
        assert x in s[..k];
      }
    }
  }

  lemma NoDupAppend(a: seq<string>, b: seq<string>)
    requires NoDuplicates(a) && NoDuplicates(b)
    requires forall x | x in a :: x !in b
    ensures NoDuplicates(a + b)
  {
    var ab := a + b;
    forall i, j | 0 <= i < j < |ab| ensures ab[i] != ab[j] {
      if j < |a| {
        assert ab[i] == a[i] && ab[j] == a[j];
      } else if i >= |a| {
        assert ab[i] == b[i - |a|] && ab[j] == b[j - |a|];
      } else {
        assert ab[i] == a[i] && ab[j] == b[j - |a|];
        assert a[i] in a;
      }
    }
  }

  /**
   * `x`, added while `listed` were listed, unlocks `u`: a dependent of `x`
   * not listed yet whose in-graph dependencies are all listed once `x` is.
   */
  predicate Unlocks(g: Graph, listed: set<string>, x: string, u: string) {
    u in Dependents(g, x) && u !in listed + {x} && InternalDeps(g, u) <= listed + {x}
  }

  /**
   * The unlocking rule at a node added while `listed` were listed: its
   * children follow the rule, and every dependent it unlocks ends up below it.
   */
  ghost predicate UnlockedBelow(g: Graph, listed: set<string>, t: TreeNode)
    decreases t
  {
    ChildrenUnlocked(g, listed, t.name, t.children)
    && forall u | Unlocks(g, listed, t.name, u) :: u in FlatAll(t.children)
  }

  /**
   * Each child of `x` is a dependent that `x` unlocks; the `i`-th has its
   * turn once every unlocked dependent sorting before it has been listed by
   * an earlier sibling's subtree, and its own subtree follows the rule from
   * what is listed at that turn.
   */
  ghost predicate ChildrenUnlocked(g: Graph, listed: set<string>, x: string, children: seq<TreeNode>)
    decreases children
  {
    forall i | 0 <= i < |children| ::
      Unlocks(g, listed, x, children[i].name)
      && (forall u | Unlocks(g, listed, x, u) && Before(DownstreamCount(g), u, children[i].name) ::
            u in FlatAll(children[..i]))
      && UnlockedBelow(g, listed + {x} + ToSet(FlatAll(children[..i])), children[i])
  }

  /**
   * A subtree placed after `listed`: its names are new, once each, in
   * dependency order, and laid out by the unlocking rule.
   */
  ghost predicate Placed(g: Graph, selected: set<string>, listed: set<string>, after: set<string>, t: TreeNode) {
    NoDuplicates(Flat(t)) && ToSet(Flat(t)) == after - listed
    && TopoOK(g, listed, Flat(t)) && WellLaidOut(g, selected, t)
    && UnlockedBelow(g, listed, t)
  }

  /**
   * Nothing was left behind: a project whose dependencies are all listed
   * now, and were not all listed before, is listed too.
   */
  predicate UnlockedAreListed(g: Graph, listed: set<string>, after: set<string>) {
    forall c | c in Ids(g) && InternalDeps(g, c) <= after && !(InternalDeps(g, c) <= listed) :: c in after
  }

  /** Appending a subtree placed after `after` to children placed after `start`. */
  lemma AppendChild(g: Graph, selected: set<string>, start: set<string>, after: set<string>, next: set<string>,
                    children: seq<TreeNode>, c: TreeNode)
    requires start <= after
    requires ToSet(FlatAll(children)) == after - start
    requires NoDuplicates(FlatAll(children)) && TopoOK(g, start, FlatAll(children))
    requires after <= next && Placed(g, selected, after, next, c)
    ensures ToSet(FlatAll(children + [c])) == next - start
    ensures NoDuplicates(FlatAll(children + [c])) && TopoOK(g, start, FlatAll(children + [c]))
  {
    var a := FlatAll(children);
    FlatAllAppend(children, c);
    assert start + ToSet(a) == after;
    TopoAppend(g, start, a, Flat(c));
    forall y | y in a ensures y !in Flat(c) {
      assert y in ToSet(a);
      assert y !in ToSet(Flat(c));
    }
    NoDupAppend(a, Flat(c));
    assert ToSet(a + Flat(c)) == ToSet(a) + ToSet(Flat(c));
  }

  /**
   * The closure bookkeeping of the children loop: a project unlocked since
   * `listed` is listed or still ahead in `unlocked`.
   */
  predicate PendingOrListed(g: Graph, listed: set<string>, after: set<string>, pending: seq<string>) {
    forall c | c in Ids(g) && InternalDeps(g, c) <= after && !(InternalDeps(g, c) <= listed) ::
      c in after || c in pending
  }

  lemma PendingStep(g: Graph, listed: set<string>, after: set<string>, next: set<string>, pending: seq<string>)
    requires pending != [] && PendingOrListed(g, listed, after, pending)
    requires after <= next && pending[0] in next && UnlockedAreListed(g, after, next)
    ensures PendingOrListed(g, listed, next, pending[1..])
  {
    forall c | c in Ids(g) && InternalDeps(g, c) <= next && !(InternalDeps(g, c) <= listed)
      ensures c in next || c in pending[1..]
    {
      if InternalDeps(g, c) <= after {
        assert c in after || c in pending;
        assert c in pending ==> c == pending[0] || c in pending[1..];
      }
    }
  }

  // ---------------------------------------------------------------------------
  // `populateProjectTree`
  // ---------------------------------------------------------------------------

  /** The dependents of `x` that `start` unlocks, in sibling order. */
  method UnlockedDependents(g: Graph, x: string, start: set<string>) returns (unlocked: seq<string>)
    ensures NoDuplicates(unlocked) && SortedBy(DownstreamCount(g), unlocked)
    ensures forall c :: c in unlocked <==> c in Dependents(g, x) && c !in start && InternalDeps(g, c) <= start
  {
    var candidates := set c | c in Dependents(g, x) && c !in start && InternalDeps(g, c) <= start;
    var listing := ListOf(candidates);
    unlocked := SortedWith(DownstreamCount(g), listing);
    DistinctMultiset(listing, candidates);
    NoDuplicatesOfMultiset(listing, unlocked);
    forall c ensures c in unlocked <==> c in candidates {
      assert c in unlocked <==> c in multiset(unlocked);
      assert c in listing <==> c in multiset(listing);
    }
  }

  /** Before the children loop, every project `x` unlocks is ahead in `unlocked`. */
  lemma PendingInitially(g: Graph, listed: set<string>, x: string, unlocked: seq<string>)
    requires WellFormed(g)
    requires forall c :: c in unlocked <==> c in Dependents(g, x) && c !in listed + {x} && InternalDeps(g, c) <= listed + {x}
    ensures PendingOrListed(g, listed, listed + {x}, unlocked)
  {
    forall c | c in Ids(g) && InternalDeps(g, c) <= listed + {x} && !(InternalDeps(g, c) <= listed)
      ensures c in listed + {x} || c in unlocked
    {
      assert x in InternalDeps(g, c);
    }
  }

  /** The next child sorts after every earlier one. */
  lemma SiblingAfter(m: map<string, int>, unlocked: seq<string>, k: int, children: seq<TreeNode>)
    requires SortedBy(m, unlocked) && NoDuplicates(unlocked) && 0 <= k < |unlocked|
    requires forall i | 0 <= i < |children| :: children[i].name in unlocked[..k]
    ensures forall i | 0 <= i < |children| :: Before(m, children[i].name, unlocked[k])
  {
    forall i | 0 <= i < |children| ensures Before(m, children[i].name, unlocked[k]) {
      var j :| 0 <= j < k && unlocked[j] == children[i].name;
      SortedDistinctStrict(m, unlocked, j, k);
    }
  }

  /** The node for `x` over children placed after `listed + {x}` is placed after `listed`. */
  lemma PlaceNode(g: Graph, selected: set<string>, listed: set<string>, after: set<string>, x: string, children: seq<TreeNode>)
    requires x !in listed && InternalDeps(g, x) <= listed && listed + {x} <= after
    requires ToSet(FlatAll(children)) == after - (listed + {x})
    requires NoDuplicates(FlatAll(children)) && TopoOK(g, listed + {x}, FlatAll(children))
    requires forall i | 0 <= i < |children| :: WellLaidOut(g, selected, children[i]) && children[i].name in Dependents(g, x)
    requires forall i, j | 0 <= i < j < |children| :: Before(DownstreamCount(g), children[i].name, children[j].name)
    requires ChildrenUnlocked(g, listed, x, children)
    requires forall u | Unlocks(g, listed, x, u) :: u in FlatAll(children)
    ensures Placed(g, selected, listed, after, TreeNode(x, x in selected, children))
  {
    var t := TreeNode(x, x in selected, children);
    assert Flat(t) == [x] + FlatAll(children);
    TopoCons(g, listed, x, FlatAll(children));
    assert x !in ToSet(FlatAll(children));
    NoDupAppend([x], FlatAll(children));
    assert ToSet(Flat(t)) == {x} + ToSet(FlatAll(children));
  }

  /**
   * The children placed so far hold exactly the names listed since `start`,
   * once each, in dependency order and in sibling order, each one a project
   * among `names`.
   */
  predicate ChildrenPlaced(g: Graph, selected: set<string>, start: set<string>, names: seq<string>,
                           after: set<string>, children: seq<TreeNode>) {
    start <= after <= Ids(g)
    && ToSet(FlatAll(children)) == after - start
    && NoDuplicates(FlatAll(children)) && TopoOK(g, start, FlatAll(children))
    && (forall i | 0 <= i < |children| :: WellLaidOut(g, selected, children[i]) && children[i].name in names)
    && (forall i, j | 0 <= i < j < |children| :: Before(DownstreamCount(g), children[i].name, children[j].name))
  }

  /**
   * What the children loop of `addProjectWithChildren` keeps after `k` of
   * the `unlocked` dependents: the children are placed among the first `k`,
   * and every project unlocked since `listed` is listed or pending.
   */
  predicate ChildrenSoFar(g: Graph, selected: set<string>, listed: set<string>, start: set<string>,
                          unlocked: seq<string>, k: int, after: set<string>, children: seq<TreeNode>) {
    0 <= k <= |unlocked|
    && ChildrenPlaced(g, selected, start, unlocked[..k], after, children)
    && PendingOrListed(g, listed, after, unlocked[k..])
  }

  /** A dependent that was already listed adds no child. */
  lemma ChildSkipped(g: Graph, selected: set<string>, start: set<string>, unlocked: seq<string>, k: int,
                     after: set<string>, children: seq<TreeNode>)
    requires 0 <= k < |unlocked| && ChildrenPlaced(g, selected, start, unlocked[..k], after, children)
    ensures ChildrenPlaced(g, selected, start, unlocked[..k + 1], after, children)
  {
    assert unlocked[..k + 1] == unlocked[..k] + [unlocked[k]];
  }

  /** A newly placed dependent becomes the last child. */
  lemma ChildAdded(g: Graph, selected: set<string>, start: set<string>, unlocked: seq<string>, k: int,
                   after: set<string>, children: seq<TreeNode>, c: TreeNode, next: set<string>)
    requires 0 <= k < |unlocked| && ChildrenPlaced(g, selected, start, unlocked[..k], after, children)
    requires NoDuplicates(unlocked) && SortedBy(DownstreamCount(g), unlocked)
    requires after <= next <= Ids(g) && c.name == unlocked[k] && Placed(g, selected, after, next, c)
    ensures ChildrenPlaced(g, selected, start, unlocked[..k + 1], next, children + [c])
  {
    assert unlocked[..k + 1] == unlocked[..k] + [unlocked[k]];
    AppendChild(g, selected, start, after, next, children, c);
    SiblingAfter(DownstreamCount(g), unlocked, k, children);
    var cs := children + [c];
    assert forall i | 0 <= i < |children| :: cs[i] == children[i];
  }

  lemma ChildStep(g: Graph, selected: set<string>, listed: set<string>, start: set<string>,
                  unlocked: seq<string>, k: int, after: set<string>, children: seq<TreeNode>,
                  child: Option<TreeNode>, next: set<string>)
    requires ChildrenSoFar(g, selected, listed, start, unlocked, k, after, children) && k < |unlocked|
    requires NoDuplicates(unlocked) && SortedBy(DownstreamCount(g), unlocked)
    requires after <= next <= Ids(g) && unlocked[k] in next && UnlockedAreListed(g, after, next)
    requires child.None? ==> next == after
    requires child.Some? ==> child.value.name == unlocked[k] && Placed(g, selected, after, next, child.value)
    ensures ChildrenSoFar(g, selected, listed, start, unlocked, k + 1, next,
                          if child.Some? then children + [child.value] else children)
  {
    PendingStep(g, listed, after, next, unlocked[k..]);
    assert unlocked[k..][1..] == unlocked[k + 1..];
    if child.Some? {
      ChildAdded(g, selected, start, unlocked, k, after, children, child.value, next);
    } else {
      ChildSkipped(g, selected, start, unlocked, k, after, children);
    }
  }

  lemma ChildrenDone(g: Graph, selected: set<string>, listed: set<string>, x: string,
                     unlocked: seq<string>, after: set<string>, children: seq<TreeNode>)
    requires ChildrenSoFar(g, selected, listed, listed + {x}, unlocked, |unlocked|, after, children)
    requires x !in listed && InternalDeps(g, x) <= listed
    requires forall c :: c in unlocked <==> Unlocks(g, listed, x, c)
    requires UnlockProgress(g, listed, x, unlocked, |unlocked|, after, children)
    ensures Placed(g, selected, listed, after, TreeNode(x, x in selected, children))
    ensures UnlockedAreListed(g, listed, after)
  {
    assert unlocked[..|unlocked|] == unlocked;
    assert unlocked[|unlocked|..] == [];
    forall u | Unlocks(g, listed, x, u) ensures u in FlatAll(children) {
      var j :| 0 <= j < |unlocked| && unlocked[j] == u;
      assert u in ToSet(FlatAll(children));
    }
    PlaceNode(g, selected, listed, after, x, children);
  }

  lemma UnlockStep(g: Graph, selected: set<string>, listed: set<string>, x: string, unlocked: seq<string>, k: int,
                   after: set<string>, children: seq<TreeNode>, child: Option<TreeNode>, next: set<string>)
    requires UnlockProgress(g, listed, x, unlocked, k, after, children) && k < |unlocked|
    requires SortedBy(DownstreamCount(g), unlocked)
    requires forall u :: u in unlocked <==> Unlocks(g, listed, x, u)
    requires listed + {x} <= after && ToSet(FlatAll(children)) == after - (listed + {x})
    requires after <= next && unlocked[k] in next
    requires child.Some? ==> child.value.name == unlocked[k] && Placed(g, selected, after, next, child.value)
    ensures UnlockProgress(g, listed, x, unlocked, k + 1, next,
                           if child.Some? then children + [child.value] else children)
  {
    if child.Some? {
      ChildUnlocked(g, listed, x, unlocked, k, after, children, child.value);
    }
  }

  /** The children loop so far: the rule holds, and the first `k` unlocked dependents are listed. */
  ghost predicate UnlockProgress(g: Graph, listed: set<string>, x: string, unlocked: seq<string>, k: int,
                                 after: set<string>, children: seq<TreeNode>) {
    0 <= k <= |unlocked|
    && ChildrenUnlocked(g, listed, x, children)
    && forall j | 0 <= j < k :: unlocked[j] in after
  }

  /**
   * The unlocking rule holds for the next child: every unlocked dependent
   * sorting before it came earlier in `unlocked`, so it is listed already.
   */
  lemma ChildUnlocked(g: Graph, listed: set<string>, x: string, unlocked: seq<string>, k: int,
                      after: set<string>, children: seq<TreeNode>, c: TreeNode)
    requires UnlockProgress(g, listed, x, unlocked, k, after, children) && k < |unlocked|
    requires SortedBy(DownstreamCount(g), unlocked)
    requires forall u :: u in unlocked <==> Unlocks(g, listed, x, u)
    requires listed + {x} <= after && ToSet(FlatAll(children)) == after - (listed + {x})
    requires c.name == unlocked[k] && UnlockedBelow(g, after, c)
    ensures ChildrenUnlocked(g, listed, x, children + [c])
  {
    var cs := children + [c];
    var n := |children|;
    assert cs[..n] == children;
    assert listed + {x} + ToSet(FlatAll(children)) == after;
    forall u | Unlocks(g, listed, x, u) && Before(DownstreamCount(g), u, c.name) ensures u in FlatAll(cs[..n]) {
      var j :| 0 <= j < |unlocked| && unlocked[j] == u;
      if j == k {
        BeforeIrreflexive(DownstreamCount(g), u);
      }
      assert u in ToSet(FlatAll(children));
    }
    forall i | 0 <= i < n ensures cs[i] == children[i] && cs[..i] == children[..i] {
    }
  }

  /**
   * `addProjectWithChildren`: nothing when `x` is already listed; otherwise
   * a node for `x` whose children are the dependents it unlocks, each added
   * the same way, in sibling order. `listed` is threaded through as the
   * mutable set of the source.
   */
  method AddProjectWithChildren(g: Graph, selected: set<string>, x: string, listed: set<string>)
    returns (node: Option<TreeNode>, after: set<string>)
    requires WellFormed(g)
    requires x in Ids(g) && listed <= Ids(g)
    requires InternalDeps(g, x) <= listed
    ensures listed <= after <= Ids(g) && x in after
    ensures node.None? <==> x in listed
    ensures node.None? ==> after == listed
    ensures node.Some? ==> node.value.name == x && Placed(g, selected, listed, after, node.value)
    ensures UnlockedAreListed(g, listed, after)
    decreases Ids(g) - listed
  {
    if x in listed {
      return None, listed;
    }
    var start := listed + {x};
    var unlocked := UnlockedDependents(g, x, start);
    PendingInitially(g, listed, x, unlocked);
    after := start;
    var children: seq<TreeNode> := [];
    var k := 0;
    while k < |unlocked|
      invariant ChildrenSoFar(g, selected, listed, start, unlocked, k, after, children)
      invariant UnlockProgress(g, listed, x, unlocked, k, after, children)
      decreases |unlocked| - k
    {
      var child, next := AddProjectWithChildren(g, selected, unlocked[k], after);
      ChildStep(g, selected, listed, start, unlocked, k, after, children, child, next);
      UnlockStep(g, selected, listed, x, unlocked, k, after, children, child, next);
      if child.Some? {
        children := children + [child.value];
      }
      after := next;
      k := k + 1;
    }
    ChildrenDone(g, selected, listed, x, unlocked, after, children);
    node := Some(TreeNode(x, x in selected, children));
  }

  /** `allProjects.filter { getInternalDeps(it.name).isEmpty() }.map { it.name }`. */
  function Level0Names(g: Graph, ps: seq<ProjectInfo>): (r: seq<string>)
    ensures forall n :: n in r <==> n in Names(ps) && InternalDeps(g, n) == {}
  {
    if ps == [] then [] else
      assert forall n :: n in Names(ps) <==> n == ps[0].name || n in Names(ps[1..]) by {
        assert Names(ps) == [ps[0].name] + Names(ps[1..]);
      }
      (if InternalDeps(g, ps[0].name) == {} then [ps[0].name] else []) + Level0Names(g, ps[1..])
  }

  lemma IdsAreNames(g: Graph)
    ensures forall n :: n in Ids(g) <==> n in Names(g.projects)
  {
    forall n ensures n in Ids(g) <==> n in Names(g.projects) {
      if n in Names(g.projects) {
        var i :| 0 <= i < |g.projects| && Names(g.projects)[i] == n;
        assert g.projects[i] in g.projects;
      }
      if n in Ids(g) {
        var p :| p in g.projects && p.name == n;
        var i :| 0 <= i < |g.projects| && g.projects[i] == p;
        assert Names(g.projects)[i] == n;
      }
    }
  }

  /** A set of projects that holds every project whose dependencies it holds. */
  predicate Closed(g: Graph, s: set<string>) {
    forall c | c in Ids(g) && InternalDeps(g, c) <= s :: c in s
  }

  /** A list in dependency order starting from nothing lies inside every closed set. */
  lemma {:induction false} TopoWithinClosed(g: Graph, xs: seq<string>, s: set<string>)
    requires TopoOK(g, {}, xs) && (forall x | x in xs :: x in Ids(g)) && Closed(g, s)
    ensures forall x | x in xs :: x in s
    decreases |xs|
  {
    if xs != [] {
      var init, last := xs[..|xs| - 1], xs[|xs| - 1];
      assert TopoOK(g, {}, init) by {
        forall k, d | 0 <= k < |init| && d in InternalDeps(g, init[k]) ensures d in init[..k] {
          assert init[k] == xs[k] && init[..k] == xs[..k];
          TopoAt(g, {}, xs, k, d);
        }
      }
      TopoWithinClosed(g, init, s);
      assert InternalDeps(g, last) <= s by {
        forall d | d in InternalDeps(g, last) ensures d in s {
          TopoAt(g, {}, xs, |xs| - 1, d);
        }
      }
      assert xs == init + [last];
    }
  }

  lemma {:induction false} RootsInFlat(ts: seq<TreeNode>)
    ensures forall i | 0 <= i < |ts| :: ts[i].name in FlatAll(ts)
  {
    if ts != [] {
      RootsInFlat(ts[1..]);
      assert FlatAll(ts) == [ts[0].name] + FlatAll(ts[0].children) + FlatAll(ts[1..]);
      forall i | 0 < i < |ts| ensures ts[i].name in FlatAll(ts) {
        assert ts[i] == ts[1..][i - 1];
      }
    }
  }

  lemma {:induction false} FlatAllConcat(a: seq<TreeNode>, b: seq<TreeNode>)
    ensures FlatAll(a + b) == FlatAll(a) + FlatAll(b)
  {
    if a == [] {
      assert a + b == b;
    } else {
      assert (a + b)[0] == a[0];
      assert (a + b)[1..] == a[1..] + b;
      FlatAllConcat(a[1..], b);
    }
  }

  lemma {:induction false} FlatAllLeaves(ts: seq<TreeNode>, names: seq<string>)
    requires |ts| == |names|
    requires forall i | 0 <= i < |ts| :: ts[i].name == names[i] && ts[i].children == []
    ensures FlatAll(ts) == names
  {
    if ts != [] {
      FlatAllLeaves(ts[1..], names[1..]);
      assert Flat(ts[0]) == [names[0]];
      assert names == [names[0]] + names[1..];
    }
  }

  /** The next root sorts after every earlier one when its name is new. */
  lemma RootAfter(m: map<string, int>, level0: seq<string>, k: int, roots: seq<TreeNode>)
    requires SortedBy(m, level0) && 0 <= k < |level0|
    requires forall i | 0 <= i < |roots| :: roots[i].name in level0[..k] && roots[i].name != level0[k]
    ensures forall i | 0 <= i < |roots| :: Before(m, roots[i].name, level0[k])
  {
    forall i | 0 <= i < |roots| ensures Before(m, roots[i].name, level0[k]) {
      var j :| 0 <= j < k && level0[j] == roots[i].name;
      BeforeTotal(m, level0[j], level0[k]);
    }
  }

  /** The roots placed after `k` level-0 names: the names listed so far, once each, in order. */
  predicate RootShape(g: Graph, selected: set<string>, level0: seq<string>, k: int,
                      reached: seq<TreeNode>, listed: set<string>) {
    0 <= k <= |level0| && listed <= Ids(g)
    && ToSet(FlatAll(reached)) == listed
    && NoDuplicates(FlatAll(reached)) && TopoOK(g, {}, FlatAll(reached))
    && (forall i | 0 <= i < |reached| :: WellLaidOut(g, selected, reached[i]) && reached[i].name in level0[..k])
    && (forall i, j | 0 <= i < j < |reached| :: Before(DownstreamCount(g), reached[i].name, reached[j].name))
  }

  /**
   * The unlocking rule among the roots: the `i`-th root has its turn once
   * every level-0 project sorting before it has been listed by an earlier
   * root's subtree, and its subtree follows the rule from what is listed then.
   */
  ghost predicate RootsUnlocked(g: Graph, roots: seq<TreeNode>) {
    forall i | 0 <= i < |roots| ::
      (forall u | u in Ids(g) && InternalDeps(g, u) == {} && Before(DownstreamCount(g), u, roots[i].name) ::
         u in FlatAll(roots[..i]))
      && UnlockedBelow(g, ToSet(FlatAll(roots[..i])), roots[i])
  }

  /** What the level-0 loop keeps after `k` roots. */
  ghost predicate RootsSoFar(g: Graph, selected: set<string>, level0: seq<string>, k: int,
                             reached: seq<TreeNode>, listed: set<string>) {
    RootShape(g, selected, level0, k, reached, listed)
    && (forall i | 0 <= i < k :: level0[i] in listed)
    && ClosedBeyondRoots(g, listed)
    && RootsUnlocked(g, reached)
  }

  /** The next root follows the rule: every level-0 project sorting before it came earlier. */
  lemma RootUnlocked(g: Graph, level0: seq<string>, k: int, reached: seq<TreeNode>, listed: set<string>, t: TreeNode)
    requires RootsUnlocked(g, reached)
    requires SortedBy(DownstreamCount(g), level0) && 0 <= k < |level0|
    requires forall u :: u in level0 <==> u in Ids(g) && InternalDeps(g, u) == {}
    requires forall j | 0 <= j < k :: level0[j] in listed
    requires listed == ToSet(FlatAll(reached))
    requires t.name == level0[k] && UnlockedBelow(g, listed, t)
    ensures RootsUnlocked(g, reached + [t])
  {
    var rs := reached + [t];
    var n := |reached|;
    assert rs[..n] == reached;
    forall u | u in Ids(g) && InternalDeps(g, u) == {} && Before(DownstreamCount(g), u, t.name)
      ensures u in FlatAll(rs[..n])
    {
      var j :| 0 <= j < |level0| && level0[j] == u;
      if j == k {
        BeforeIrreflexive(DownstreamCount(g), u);
      }
      assert u in ToSet(FlatAll(reached));
    }
    forall i | 0 <= i < n ensures rs[i] == reached[i] && rs[..i] == reached[..i] {
    }
  }

  lemma AppendRoot(g: Graph, selected: set<string>, level0: seq<string>, k: int,
                   reached: seq<TreeNode>, listed: set<string>, t: TreeNode, after: set<string>)
    requires RootShape(g, selected, level0, k, reached, listed) && k < |level0|
    requires SortedBy(DownstreamCount(g), level0)
    requires listed <= after <= Ids(g) && t.name == level0[k] && t.name !in listed
    requires Placed(g, selected, listed, after, t)
    ensures RootShape(g, selected, level0, k + 1, reached + [t], after)
  {
    var r := reached + [t];
    assert level0[..k + 1] == level0[..k] + [level0[k]];
    RootsInFlat(reached);
    forall i | 0 <= i < |reached| ensures reached[i].name != t.name {
      assert reached[i].name in ToSet(FlatAll(reached));
    }
    RootAfter(DownstreamCount(g), level0, k, reached);
    AppendChild(g, selected, {}, listed, after, reached, t);
    forall i | 0 <= i < |r| ensures WellLaidOut(g, selected, r[i]) && r[i].name in level0[..k + 1] {
      if i < |reached| { assert r[i] == reached[i]; }
    }
    forall i, j | 0 <= i < j < |r| ensures Before(DownstreamCount(g), r[i].name, r[j].name) {
      assert r[i] == reached[i];
      if j < |reached| { assert r[j] == reached[j]; }
    }
  }

  /** Every project with some dependency, all of them in `s`, is in `s`. */
  predicate ClosedBeyondRoots(g: Graph, s: set<string>) {
    forall c | c in Ids(g) && InternalDeps(g, c) <= s && InternalDeps(g, c) != {} :: c in s
  }

  lemma ClosedBeyondRootsStep(g: Graph, listed: set<string>, after: set<string>)
    requires ClosedBeyondRoots(g, listed) && listed <= after && UnlockedAreListed(g, listed, after)
    ensures ClosedBeyondRoots(g, after)
  {
    forall c | c in Ids(g) && InternalDeps(g, c) <= after && InternalDeps(g, c) != {} ensures c in after {
      if InternalDeps(g, c) <= listed {
        assert c in listed;
      }
    }
  }

  lemma RootStep(g: Graph, selected: set<string>, level0: seq<string>, k: int,
                 reached: seq<TreeNode>, listed: set<string>, node: Option<TreeNode>, after: set<string>)
    requires RootsSoFar(g, selected, level0, k, reached, listed) && k < |level0|
    requires SortedBy(DownstreamCount(g), level0)
    requires forall u :: u in level0 <==> u in Ids(g) && InternalDeps(g, u) == {}
    requires listed <= after <= Ids(g) && level0[k] in after && UnlockedAreListed(g, listed, after)
    requires node.None? <==> level0[k] in listed
    requires node.None? ==> after == listed
    requires node.Some? ==> node.value.name == level0[k] && Placed(g, selected, listed, after, node.value)
    ensures RootsSoFar(g, selected, level0, k + 1, if node.Some? then reached + [node.value] else reached, after)
  {
    ClosedBeyondRootsStep(g, listed, after);
    LevelPrefixStep(level0, k, listed, after);
    if node.Some? {
      AppendRoot(g, selected, level0, k, reached, listed, node.value, after);
      RootUnlocked(g, level0, k, reached, listed, node.value);
    } else {
      RootSkipped(g, selected, level0, k, reached, listed);
    }
  }

  /** The first `k + 1` level-0 projects are listed once the next one is. */
  lemma LevelPrefixStep(level0: seq<string>, k: int, listed: set<string>, after: set<string>)
    requires 0 <= k < |level0| && listed <= after && level0[k] in after
    requires forall i | 0 <= i < k :: level0[i] in listed
    ensures forall i | 0 <= i < k + 1 :: level0[i] in after
  {
  }

  /** A level-0 project that was already listed adds no root. */
  lemma RootSkipped(g: Graph, selected: set<string>, level0: seq<string>, k: int,
                    reached: seq<TreeNode>, listed: set<string>)
    requires RootShape(g, selected, level0, k, reached, listed) && k < |level0|
    ensures RootShape(g, selected, level0, k + 1, reached, listed)
  {
    assert level0[..k + 1] == level0[..k] + [level0[k]];
  }

  /** The `level0.forEach { addProjectWithChildren(it, rootNode, 0) }` loop. */
  method AddLevel0(g: Graph, selected: set<string>, level0: seq<string>) returns (reached: seq<TreeNode>, listed: set<string>)
    requires WellFormed(g)
    requires SortedBy(DownstreamCount(g), level0)
    requires forall n :: n in level0 <==> n in Ids(g) && InternalDeps(g, n) == {}
    ensures RootsSoFar(g, selected, level0, |level0|, reached, listed)
  {
    listed := {};
    reached := [];
    for k := 0 to |level0|
      invariant RootsSoFar(g, selected, level0, k, reached, listed)
    {
      var node, after := AddProjectWithChildren(g, selected, level0[k], listed);
      RootStep(g, selected, level0, k, reached, listed, node, after);
      if node.Some? {
        reached := reached + [node.value];
      }
      listed := after;
    }
  }

  /** The fallback loop: one childless node per name, in order. */
  method LeafNodes(order: seq<string>, selected: set<string>) returns (leaves: seq<TreeNode>)
    ensures FlatAll(leaves) == order
    ensures |leaves| == |order| && forall i | 0 <= i < |leaves| :: leaves[i].name == order[i]
    ensures forall i | 0 <= i < |leaves| :: leaves[i].children == [] && leaves[i].checked == (leaves[i].name in selected)
  {
    leaves := [];
    for k := 0 to |order|
      invariant |leaves| == k
      invariant forall i | 0 <= i < k :: leaves[i] == TreeNode(order[i], order[i] in selected, [])
    {
      leaves := leaves + [TreeNode(order[k], order[k] in selected, [])];
    }
    FlatAllLeaves(leaves, order);
  }

  /** `level0`: the projects without in-graph dependencies, in sibling order. */
  function Level0(g: Graph): (r: seq<string>)
    ensures SortedBy(DownstreamCount(g), r)
    ensures forall n :: n in r <==> n in Ids(g) && InternalDeps(g, n) == {}
  {
    var candidates := Level0Names(g, g.projects);
    var r := SortedWith(DownstreamCount(g), candidates);
    IdsAreNames(g);
    assert forall n :: n in r <==> n in candidates by {
      forall n ensures n in r <==> n in candidates {
        assert n in r <==> n in multiset(r);
        assert n in candidates <==> n in multiset(candidates);
      }
    }
    r
  }

  /**
   * The fallback loop: every project name not in `listed`, sorted, each as
   * a childless root.
   */
  method FallbackRoots(g: Graph, selected: set<string>, listed: set<string>) returns (fallback: seq<TreeNode>)
    requires Closed(g, listed)
    ensures forall n :: n in FlatAll(fallback) <==> n in Ids(g) && n !in listed
    ensures NoDuplicates(Names(g.projects)) ==> NoDuplicates(FlatAll(fallback))
    ensures SortedBy(DownstreamCount(g), FlatAll(fallback))
    ensures forall i | 0 <= i < |fallback| ::
              fallback[i].children == [] && fallback[i].checked == (fallback[i].name in selected)
              && !(InternalDeps(g, fallback[i].name) <= listed)
  {
    IdsAreNames(g);
    var rest := FilterOut(Names(g.projects), listed);
    var order := SortedWith(DownstreamCount(g), rest);
    assert forall n :: n in order <==> n in rest by {
      forall n ensures n in order <==> n in rest {
        assert n in order <==> n in multiset(order);
        assert n in rest <==> n in multiset(rest);
      }
    }
    fallback := LeafNodes(order, selected);
    if NoDuplicates(Names(g.projects)) {
      NoDuplicatesOfMultiset(rest, order);
    }
    forall i | 0 <= i < |fallback| ensures !(InternalDeps(g, fallback[i].name) <= listed) {
      var n := order[i];
      assert n in rest;
      assert n in Ids(g) && n !in listed;
    }
  }

  /** After the level-0 loop the listed set is closed, and the least closed set. */
  lemma ReachedIsLeastClosed(g: Graph, selected: set<string>, reached: seq<TreeNode>, listed: set<string>)
    requires RootsSoFar(g, selected, Level0(g), |Level0(g)|, reached, listed)
    ensures Closed(g, listed)
    ensures forall s | Closed(g, s) :: listed <= s
  {
    var level0 := Level0(g);
    assert level0[..|level0|] == level0;
    forall c | c in Ids(g) && InternalDeps(g, c) <= listed ensures c in listed {
      if InternalDeps(g, c) == {} {
        assert c in level0;
        var i :| 0 <= i < |level0| && level0[i] == c;
      }
    }
    forall s | Closed(g, s) ensures listed <= s {
      TopoWithinClosed(g, FlatAll(reached), s);
    }
  }

  /**
   * What `populateProjectTree` lays out: the roots it reaches from the
   * level-0 projects, then the fallback roots.
   */
  ghost predicate ProjectTree(g: Graph, selected: set<string>, reached: seq<TreeNode>, fallback: seq<TreeNode>) {
    // every project is placed; once when the names are distinct
    (forall n :: n in FlatAll(reached + fallback) <==> n in Ids(g))
    && NoDuplicates(FlatAll(reached))
    && (NoDuplicates(Names(g.projects)) ==> NoDuplicates(FlatAll(reached + fallback)))
    // the reached part: dependency order, no dependencies at the roots, sorted roots
    && TopoOK(g, {}, FlatAll(reached))
    && (forall i | 0 <= i < |reached| :: WellLaidOut(g, selected, reached[i]) && InternalDeps(g, reached[i].name) == {})
    && (forall i, j | 0 <= i < j < |reached| :: Before(DownstreamCount(g), reached[i].name, reached[j].name))
    // each project hangs under the project whose listing unlocked it
    && RootsUnlocked(g, reached)
    // the reached part is the least closed set of projects
    && Closed(g, ToSet(FlatAll(reached)))
    && (forall s | Closed(g, s) :: ToSet(FlatAll(reached)) <= s)
    // the fallback roots: the rest, sorted, childless, each waiting on an unreached dependency
    && (forall n :: n in FlatAll(fallback) <==> n in Ids(g) && n !in FlatAll(reached))
    && SortedBy(DownstreamCount(g), FlatAll(fallback))
    && forall i | 0 <= i < |fallback| ::
         fallback[i].children == [] && fallback[i].checked == (fallback[i].name in selected)
         && !(InternalDeps(g, fallback[i].name) <= ToSet(FlatAll(reached)))
  }

  /**
   * `populateProjectTree`: the level-0 projects, each with the subtree it
   * unlocks, then every project never reached as a childless root.
   */
  method PopulateProjectTree(g: Graph, selected: set<string>) returns (reached: seq<TreeNode>, fallback: seq<TreeNode>)
    requires WellFormed(g)
    ensures ProjectTree(g, selected, reached, fallback)
  {
    var level0 := Level0(g);
    var listed;
    reached, listed := AddLevel0(g, selected, level0);
    ReachedIsLeastClosed(g, selected, reached, listed);
    fallback := FallbackRoots(g, selected, listed);
    forall n ensures n in FlatAll(reached) <==> n in listed {
      assert n in FlatAll(reached) <==> n in ToSet(FlatAll(reached));
    }
    FlatAllConcat(reached, fallback);
    if NoDuplicates(Names(g.projects)) {
      NoDupAppend(FlatAll(reached), FlatAll(fallback));
    }
    forall i | 0 <= i < |reached| ensures InternalDeps(g, reached[i].name) == {} {
      assert level0[..|level0|] == level0;
      assert reached[i].name in level0;
    }
  }

  /**
   * `a`, `b` depending on `a`, and `c` depending on both, with the indexes
   * `buildDependencyMaps` builds for them.
   */
  function Chain(): Graph {
    var a, b, c := ProjectInfo("a", [], false), ProjectInfo("b", ["a"], false), ProjectInfo("c", ["a", "b"], false);
    Graph([a, b, c], map["a" := a, "b" := b, "c" := c], map["a" := {"b", "c"}, "b" := {"c"}])
  }

  /** The chain's indexes are the ones `buildDependencyMaps` builds. */
  lemma ChainIndexes()
    ensures IsIndexOf(Chain().byName, Chain().projects) && IsReverseIndex(Chain().dependents, Chain().projects)
  {
    ChainByName();
    ChainReverse();
  }

  lemma ChainByName()
    ensures IsIndexOf(Chain().byName, Chain().projects)
  {
    var ps := Chain().projects;
    assert LastNamed(ps, "a", ps[0]) && LastNamed(ps, "b", ps[1]) && LastNamed(ps, "c", ps[2]);
  }

  lemma ChainReverse()
    ensures IsReverseIndex(Chain().dependents, Chain().projects)
  {
    var g := Chain();
    var ps := g.projects;
    forall d, c ensures (d in g.dependents && c in g.dependents[d]) <==> DependsOnEdge(ps, d, c) {
      if DependsOnEdge(ps, d, c) {
        var i, k :| 0 <= i < |ps| && 0 <= k < |ps[i].dependsOn| && ps[i].name == c && ps[i].dependsOn[k] == d;
        assert i == 1 || i == 2;
      }
      if d == "a" && c == "b" { assert ps[1].dependsOn[0] == "a"; }
      if d == "a" && c == "c" { assert ps[2].dependsOn[0] == "a"; }
      if d == "b" && c == "c" { assert ps[2].dependsOn[1] == "b"; }
    }
  }

  lemma ChainDeps()
    ensures Ids(Chain()) == {"a", "b", "c"}
    ensures InternalDeps(Chain(), "b") == {"a"} && InternalDeps(Chain(), "c") == {"a", "b"}
    ensures Dependents(Chain(), "a") == {"b", "c"} && Dependents(Chain(), "b") == {"c"} && Dependents(Chain(), "c") == {}
  {
    var g := Chain();
    assert g.projects[0].name == "a" && g.projects[1].name == "b" && g.projects[2].name == "c";
    assert Ids(g) == {"a", "b", "c"};
    assert "b" in g.byName["c"].dependsOn;
  }

  /** Beside `b` under `a`, `c` would not be unlocked: `a` alone leaves `b` missing. */
  lemma ChainNotFlat()
    ensures !UnlockedBelow(Chain(), {}, TreeNode("a", false, [TreeNode("b", false, []), TreeNode("c", false, [])]))
  {
    ChainDeps();
    var children := [TreeNode("b", false, []), TreeNode("c", false, [])];
    assert !Unlocks(Chain(), {}, "a", children[1].name);
    assert !ChildrenUnlocked(Chain(), {}, "a", children);
  }

  lemma ChainLeaf()
    ensures UnlockedBelow(Chain(), {"a", "b"}, TreeNode("c", false, []))
  {
    ChainDeps();
  }

  lemma ChainMiddle()
    ensures UnlockedBelow(Chain(), {"a"}, TreeNode("b", false, [TreeNode("c", false, [])]))
  {
    ChainDeps();
    ChainLeaf();
    var g := Chain();
    var cNode := TreeNode("c", false, []);
    assert FlatAll([cNode]) == ["c"];
    assert [cNode][..0] == [];
    assert {"a"} + {"b"} + ToSet(FlatAll([cNode][..0])) == {"a", "b"};
    assert forall u | Unlocks(g, {"a"}, "b", u) :: u == "c";
    assert ChildrenUnlocked(g, {"a"}, "b", [cNode]);
  }

  /** Under `b`, whose listing completed its dependencies, `c` follows the rule. */
  lemma ChainNested()
    ensures UnlockedBelow(Chain(), {}, TreeNode("a", false, [TreeNode("b", false, [TreeNode("c", false, [])])]))
  {
    ChainDeps();
    ChainMiddle();
    var g := Chain();
    var bNode := TreeNode("b", false, [TreeNode("c", false, [])]);
    assert FlatAll([bNode]) == ["b", "c"] by {
      assert FlatAll(bNode.children) == ["c"];
    }
    assert [bNode][..0] == [];
    assert {} + {"a"} + ToSet(FlatAll([bNode][..0])) == {"a"};
    assert forall u | Unlocks(g, {}, "a", u) :: u == "b";
    assert ChildrenUnlocked(g, {}, "a", [bNode]);
  }
}
