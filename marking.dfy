/**
 * What the mark phase computes, stated independently of the worklist that
 * computes it: the least set of components that contains the entry points and
 * is closed under the dependency edges that can take effect, and for each kept
 * component the usage types that caused it to be kept.
 *
 * The phase only looks at the scene through three things, gathered in a
 * `Graph`: which components are entry points, which can be active, and the
 * collector's edges. `GraphOf` computes them from the scene and the overlay.
 */
module Marking {
  import opened Wrappers
  import opened SceneModel
  import opened Modifications
  import opened Dependencies
  import opened ActivenessResolver
  import opened EntryPoints

  /** The inputs of one pass: the scene, the overlay, the collector's graph and the excluded GameObjects. */
  datatype Analysis = Analysis(
    scene: Scene,
    modifications: ModificationsContainer,
    collector: Collector,
    exclusions: seq<Comp>)

  ghost predicate AnalysisValid(run: Analysis) {
    && WellFormed(run.scene)
    && CollectorWellFormed(run.scene, run.collector)
    && (forall g :: g in run.exclusions ==> g in run.scene.transforms)
  }

  /**
   * What the mark phase sees: the known components, the entry points, the
   * components that can be active (activeness not constantly false) and the
   * collector's records.
   */
  datatype Graph = Graph(nodes: set<Comp>, seeds: set<Comp>, active: set<Comp>, collector: Collector)

  ghost predicate GraphValid(g: Graph) {
    && g.seeds <= g.nodes
    && g.active <= g.nodes
    && forall c, j :: c in g.collector && 0 <= j < |g.collector[c].dependencies| ==>
         g.collector[c].dependencies[j].target in g.nodes
  }

  /** The `canBeActive` flag a component is queued with: its activeness is not constantly false. */
  ghost predicate CanBeActive(run: Analysis, c: Comp)
    requires AnalysisValid(run) && c in run.scene.components
  {
    Activeness(run.scene, run.modifications, c) != Some(false)
  }

  /**
   * An entry point of the mark phase: a component that can be active and is
   * either flagged by the collector on a GameObject the entry-point walk
   * yields, or attached to an excluded GameObject.
   */
  ghost predicate IsEntry(run: Analysis, d: Comp)
    requires AnalysisValid(run) && d in run.scene.components
  {
    && CanBeActive(run, d)
    && ((GetDependencies(run.collector, d).entrypoint
         && ActiveAble(run.scene, run.modifications, TransformOf(run.scene, d)))
        || TransformOf(run.scene, d) in run.exclusions)
  }

  ghost function GraphOf(run: Analysis): (g: Graph)
    requires AnalysisValid(run)
    ensures GraphValid(g)
    ensures g.nodes == run.scene.components.Keys && g.collector == run.collector
    ensures forall c :: c in g.active <==> c in run.scene.components && CanBeActive(run, c)
    ensures forall d :: d in g.seeds <==> d in run.scene.components && IsEntry(run, d)
  {
    Graph(
      run.scene.components.Keys,
      (set d | d in run.scene.components && IsEntry(run, d)),
      (set c | c in run.scene.components && CanBeActive(run, c)),
      run.collector)
  }

  ghost function Edge(g: Graph, c: Comp, j: int): Dependency
    requires c in g.collector && 0 <= j < |g.collector[c].dependencies|
  {
    g.collector[c].dependencies[j]
  }

  /**
   * The j-th edge of `c` marks its target: `c` has a dependency record, the
   * edge applies while `c` is disabled or `c` can be active, and the edge
   * keeps a disabled target or the target can be active.
   */
  ghost predicate EdgeFires(g: Graph, c: Comp, j: int) {
    && c in g.collector
    && 0 <= j < |g.collector[c].dependencies|
    && (Edge(g, c, j).flags.evenIfThisIsDisabled || c in g.active)
    && (Edge(g, c, j).flags.evenIfTargetIsDisabled || Edge(g, c, j).target in g.active)
  }

  /** `S` holds every entry point and the target of every edge that fires from a member. */
  ghost predicate Closed(g: Graph, S: set<Comp>) {
    && g.seeds <= S
    && (forall c, j :: c in S && EdgeFires(g, c, j) ==> Edge(g, c, j).target in S)
  }

  /** `M` is closed and contained in every closed set: exactly the components reachable from an entry point. */
  ghost predicate LeastClosed(g: Graph, M: set<Comp>) {
    Closed(g, M) && forall S :: Closed(g, S) ==> M <= S
  }

  /**
   * Why `d` carries usage type `t` when the components in `P` have had their
   * edges followed: `d` is an entry point (type Normal), or a firing edge
   * from a member of `P` to `d` carries `t`.
   */
  ghost predicate Reason(g: Graph, P: set<Comp>, d: Comp, t: DependencyType) {
    (t == Normal && d in g.seeds) || KeptBy(g, P, d, t)
  }

  /** A firing edge from a member of `P` to `d` carries usage type `t`. */
  ghost predicate KeptBy(g: Graph, P: set<Comp>, d: Comp, t: DependencyType) {
    exists c, j :: c in P && EdgeFires(g, c, j) && Edge(g, c, j).target == d && t in Edge(g, c, j).types
  }

  /** Every kept component is an entry point or the target of an edge that fires from another kept component. */
  lemma {:induction false} MarkedIsJustified(g: Graph, M: set<Comp>, d: Comp) returns (c: Comp, j: int)
    requires LeastClosed(g, M) && d in M
    ensures d in g.seeds || (c in M && c != d && EdgeFires(g, c, j) && Edge(g, c, j).target == d)
  {
    c, j := 0, 0;
    if d in g.seeds {
      return;
    }
    if exists c', j' :: c' in M && c' != d && EdgeFires(g, c', j') && Edge(g, c', j').target == d {
      c, j :| c in M && c != d && EdgeFires(g, c, j) && Edge(g, c, j).target == d;
      return;
    }
    UnjustifiedRemovalKeepsClosed(g, M, d);
    assert false;
  }

  /**
   * Taking out a component that is no entry point and that no firing edge
   * from another member reaches leaves the set closed: a self-loop alone
   * does not keep a component.
   */
  lemma UnjustifiedRemovalKeepsClosed(g: Graph, M: set<Comp>, d: Comp)
    requires Closed(g, M) && d !in g.seeds
    requires !exists c, j :: c in M && c != d && EdgeFires(g, c, j) && Edge(g, c, j).target == d
    ensures Closed(g, M - {d})
  {
    forall c, j | c in M - {d} && EdgeFires(g, c, j) ensures Edge(g, c, j).target in M - {d} {
      assert Edge(g, c, j).target in M;
    }
  }

  /**
   * A kept component that is never active was kept only through an edge
   * flagged EvenIfTargetIsDisabled: entry points are not marked when they are
   * never active.
   */
  lemma InactiveKeptOnlyByEvenIfTargetIsDisabled(g: Graph, M: set<Comp>, d: Comp) returns (c: Comp, j: int)
    requires LeastClosed(g, M) && d in M && d !in g.active
    requires g.seeds <= g.active
    ensures c in M && c != d && EdgeFires(g, c, j)
    ensures Edge(g, c, j).target == d && Edge(g, c, j).flags.evenIfTargetIsDisabled
  {
    c, j := MarkedIsJustified(g, M, d);
  }

  /** In the scene's graph every entry point can be active. */
  lemma EntriesCanBeActive(run: Analysis)
    requires AnalysisValid(run)
    ensures GraphOf(run).seeds <= GraphOf(run).active
  {
  }

  /** The least closed set is unique, so the marked set does not depend on the order of the worklist. */
  lemma LeastClosedUnique(g: Graph, A: set<Comp>, B: set<Comp>)
    requires LeastClosed(g, A) && LeastClosed(g, B)
    ensures A == B
  {
    assert A <= B && B <= A;
  }

  /** Only known components are ever kept. */
  lemma MarkedAreNodes(g: Graph, M: set<Comp>)
    requires GraphValid(g) && LeastClosed(g, M)
    ensures M <= g.nodes
  {
    assert Closed(g, g.nodes);
  }
}
