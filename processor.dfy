/**
 * FindUnusedObjectsProcessor: resolves activeness, marks every component
 * reachable from the entry points, destroys the rest, and then configures
 * MergeBone on the bones that can be merged.
 */
module Processor {
  import opened Wrappers
  import opened SceneModel
  import opened Modifications
  import opened Dependencies
  import opened ActivenessResolver
  import opened EntryPoints
  import opened Marking
  import opened Worklist
  import opened Sessions
  import opened MergeBoneConfig
  import opened GcData

  /** Once the flagged components of every active-able GameObject and all components of the excluded ones are marked, every entry point is. */
  lemma SeedsCovered(run: Analysis, g: Graph, marked: map<Comp, set<DependencyType>>, gameObjects: seq<Comp>)
    requires AnalysisValid(run)
    requires forall c :: c in g.active <==> c in run.scene.components && CanBeActive(run, c)
    requires forall d :: d in g.seeds <==> d in run.scene.components && IsEntry(run, d)
    requires forall t :: t in gameObjects ==> t in run.scene.transforms
    requires forall t :: t in run.scene.transforms && ActiveAble(run.scene, run.modifications, t) ==> t in gameObjects
    requires forall k :: 0 <= k < |gameObjects| ==> Covered(run, g, gameObjects[k], true, marked.Keys)
    requires forall k :: 0 <= k < |run.exclusions| ==> Covered(run, g, run.exclusions[k], false, marked.Keys)
    ensures g.seeds <= marked.Keys
  {
    var sc := run.scene;
    forall d | d in g.seeds ensures d in marked {
      var t := TransformOf(sc, d);
      assert d in Attached(sc, t);
      if GetDependencies(run.collector, d).entrypoint && ActiveAble(sc, run.modifications, t) {
        var k :| 0 <= k < |gameObjects| && gameObjects[k] == t;
      } else {
        var k :| 0 <= k < |run.exclusions| && run.exclusions[k] == t;
      }
    }
  }

  /** `g` is the graph the mark phase sees in `run`: GraphOf(run), through the facts the processor uses. */
  ghost predicate Matches(run: Analysis, g: Graph)
    requires AnalysisValid(run)
  {
    && g.nodes == run.scene.components.Keys
    && g.collector == run.collector
    && GraphValid(g)
    && (forall c :: c in g.active <==> c in run.scene.components && CanBeActive(run, c))
    && (forall d :: d in g.seeds <==> d in run.scene.components && IsEntry(run, d))
  }

  lemma GraphOfMatches(run: Analysis)
    requires AnalysisValid(run)
    ensures Matches(run, GraphOf(run))
  {
  }

  /** `g` agrees with `run` on whether the known component `c` can be active. */
  ghost predicate ActiveMatches(run: Analysis, g: Graph, c: Comp)
    requires AnalysisValid(run)
  {
    c in run.scene.components && c in g.nodes && (c in g.active <==> CanBeActive(run, c))
  }

  /**
   * The components on an active-able GameObject that the collector flags, and
   * all components on an excluded GameObject, are entry points when they can
   * be active.
   */
  lemma AttachedMatch(run: Analysis, g: Graph, t: Comp, onlyEntrypoints: bool)
    requires AnalysisValid(run) && Matches(run, g) && t in run.scene.transforms
    requires onlyEntrypoints ==> ActiveAble(run.scene, run.modifications, t)
    requires !onlyEntrypoints ==> t in run.exclusions
    ensures SeedCandidates(run, g, t, onlyEntrypoints)
  {
    var sc := run.scene;
    forall c | c in Attached(sc, t) ensures ActiveMatches(run, g, c) {
      assert c in sc.components;
    }
    forall c | (c in Attached(sc, t) && c in g.active
                && (onlyEntrypoints ==> GetDependencies(run.collector, c).entrypoint))
      ensures c in g.seeds
    {
      assert c in sc.components && TransformOf(sc, c) == t;
      assert IsEntry(run, c);
    }
  }

  /**
   * What the entry-point marking needs of the GameObject `t`: `g` agrees with
   * `run` on its components, and those it will mark are entry points.
   */
  ghost predicate SeedCandidates(run: Analysis, g: Graph, t: Comp, onlyEntrypoints: bool)
    requires AnalysisValid(run) && t in run.scene.transforms
  {
    && (forall c :: c in Attached(run.scene, t) ==> ActiveMatches(run, g, c))
    && (forall c :: (c in Attached(run.scene, t) && c in g.active
                     && (onlyEntrypoints ==> GetDependencies(run.collector, c).entrypoint)) ==> c in g.seeds)
  }

  /** The candidates among the first `n` of `components` that can be active are in `keys`. */
  ghost predicate SeedPrefixMarked(g: Graph, collector: Collector, components: seq<Comp>, n: int,
                                   onlyEntrypoints: bool, keys: set<Comp>)
  {
    forall k :: (0 <= k < n && k < |components| && components[k] in g.active
                 && (onlyEntrypoints ==> GetDependencies(collector, components[k]).entrypoint))
                ==> components[k] in keys
  }

  lemma SeedPrefixNext(g: Graph, collector: Collector, components: seq<Comp>, n: int,
                       onlyEntrypoints: bool, A: set<Comp>, B: set<Comp>)
    requires 0 <= n < |components| && A <= B
    requires SeedPrefixMarked(g, collector, components, n, onlyEntrypoints, A)
    requires (components[n] in g.active && (onlyEntrypoints ==> GetDependencies(collector, components[n]).entrypoint))
             ==> components[n] in B
    ensures SeedPrefixMarked(g, collector, components, n + 1, onlyEntrypoints, B)
  {
  }

  /** Every component of the GameObject `t` the entry-point marking is after is in `keys`. */
  ghost predicate Covered(run: Analysis, g: Graph, t: Comp, onlyEntrypoints: bool, keys: set<Comp>)
    requires t in run.scene.transforms
  {
    forall c :: (c in Attached(run.scene, t) && c in g.active
                 && (onlyEntrypoints ==> GetDependencies(run.collector, c).entrypoint)) ==> c in keys
  }

  /** `g` agrees with `run` on the known components and on which of them can be active. */
  ghost predicate NodesMatch(run: Analysis, g: Graph)
    requires AnalysisValid(run)
  {
    && GraphValid(g)
    && g.nodes == run.scene.components.Keys
    && g.collector == run.collector
    && forall c :: c in run.scene.components ==> (c in g.active <==> CanBeActive(run, c))
  }

  /** Coverage of the first `n` GameObjects of `ts` survives marking more components. */
  lemma CoveredGrows(run: Analysis, g: Graph, ts: seq<Comp>, n: int, onlyEntrypoints: bool, A: set<Comp>, B: set<Comp>)
    requires n <= |ts| && forall t :: t in ts ==> t in run.scene.transforms
    requires A <= B && forall k :: 0 <= k < n ==> Covered(run, g, ts[k], onlyEntrypoints, A)
    ensures forall k :: 0 <= k < n ==> Covered(run, g, ts[k], onlyEntrypoints, B)
  {
  }

  /** Coverage of the first `n` GameObjects, then of the next one, is coverage of the first `n + 1`. */
  lemma CoveredNext(run: Analysis, g: Graph, ts: seq<Comp>, n: int, onlyEntrypoints: bool, A: set<Comp>, B: set<Comp>)
    requires 0 <= n < |ts| && forall t :: t in ts ==> t in run.scene.transforms
    requires A <= B && forall k :: 0 <= k < n ==> Covered(run, g, ts[k], onlyEntrypoints, A)
    requires Covered(run, g, ts[n], onlyEntrypoints, B)
    ensures forall k :: 0 <= k < n + 1 ==> Covered(run, g, ts[k], onlyEntrypoints, B)
  {
    CoveredGrows(run, g, ts, n, onlyEntrypoints, A, B);
  }

  /** The session's GameObjects (as their Transforms) that are not marked. */
  ghost function UnmarkedGameObjects(sc: Scene, M: set<Comp>): set<Comp> {
    set t | t in sc.all && t in sc.transforms && t !in M
  }

  /** The session's components other than Transforms that are not marked. */
  ghost function UnmarkedComponents(sc: Scene, M: set<Comp>): set<Comp> {
    set c | c in sc.all && c !in sc.transforms && c !in M
  }

  /** The unmarked components among the first `n` of the session stay gone when more is destroyed. */
  lemma SweptStayGone(sc: Scene, M: set<Comp>, n: int, D1: set<Comp>, C1: set<Comp>, D2: set<Comp>, C2: set<Comp>)
    requires WellFormed(sc) && 0 <= n < |sc.all| && D1 <= D2 && C1 <= C2
    requires forall k :: 0 <= k < n && sc.all[k] !in M ==> Gone(sc, D1, C1, sc.all[k])
    requires sc.all[n] !in M ==> Gone(sc, D2, C2, sc.all[n])
    ensures forall k :: 0 <= k < n + 1 && sc.all[k] !in M ==> Gone(sc, D2, C2, sc.all[k])
  {
    forall k | 0 <= k < n && sc.all[k] !in M ensures Gone(sc, D2, C2, sc.all[k]) {
      GoneMonotone(sc, D1, C1, D2, C2, sc.all[k]);
    }
  }

  /**
   * The sweep's outcome: when only unmarked objects were destroyed and every
   * unmarked one is gone, a component of the session is gone exactly when it
   * is unmarked or the GameObject of one of its ancestors is unmarked.
   */
  lemma {:induction false} SweepOutcome(sc: Scene, M: set<Comp>, D: set<Comp>, C: set<Comp>)
    requires WellFormed(sc)
    requires D <= UnmarkedGameObjects(sc, M) && C <= UnmarkedComponents(sc, M)
    requires forall k :: 0 <= k < |sc.all| && sc.all[k] !in M ==> Gone(sc, D, C, sc.all[k])
    ensures forall c :: c in sc.all ==>
              (Gone(sc, D, C, c) <==> c !in M || Destroyed(sc, UnmarkedGameObjects(sc, M), TransformOf(sc, c)))
  {
    var U := UnmarkedGameObjects(sc, M);
    forall c | c in sc.all
      ensures Gone(sc, D, C, c) <==> c !in M || Destroyed(sc, U, TransformOf(sc, c))
    {
      var t := TransformOf(sc, c);
      if Destroyed(sc, D, t) {
        DestroyedMonotone(sc, D, U, t);
      }
      if c !in M {
        var k :| 0 <= k < |sc.all| && sc.all[k] == c;
      } else if Destroyed(sc, U, t) {
        var a := DestroyedWitness(sc, U, t);
        var k :| 0 <= k < |sc.all| && sc.all[k] == a;
        assert a !in C;
        assert Destroyed(sc, D, a);
        DestroyedSpreads(sc, D, a, t);
      }
    }
  }

  /**
   * After the sweep, every live Transform under the avatar root is marked, so
   * looking up its mask while configuring MergeBone cannot fail.
   */
  lemma SweptContextValid(ctx: MergeContext)
    requires WellFormed(ctx.scene)
    requires ctx.destroyedComponents <= UnmarkedComponents(ctx.scene, ctx.marked.Keys)
    requires forall c :: c in ctx.scene.all ==>
               (Gone(ctx.scene, ctx.destroyedGameObjects, ctx.destroyedComponents, c) <==>
                c !in ctx.marked || Destroyed(ctx.scene, UnmarkedGameObjects(ctx.scene, ctx.marked.Keys),
                                              TransformOf(ctx.scene, c)))
    ensures ContextValid(ctx)
  {
    var sc := ctx.scene;
    forall t | (t in sc.transforms && IsAncestorOrSelf(sc, sc.root, t)
                && !Destroyed(sc, ctx.destroyedGameObjects, t))
      ensures t in ctx.marked
    {
      UnderRootInSession(sc, t);
      assert t !in ctx.destroyedComponents;
    }
  }

  /**
   * The debug pass's entry-point flag: flagged by the collector on an
   * active-able GameObject, or on an excluded GameObject. Unlike the mark
   * phase it does not ask whether the component can be active.
   */
  ghost predicate GcEntry(run: Analysis, c: Comp)
    requires WellFormed(run.scene) && c in run.scene.components
  {
    || (GetDependencies(run.collector, c).entrypoint
        && ActiveAble(run.scene, run.modifications, TransformOf(run.scene, c)))
    || TransformOf(run.scene, c) in run.exclusions
  }

  /** The record of a component after the first pass: its activeness and outgoing edges, nothing else yet. */
  ghost function BaseRecord(run: Analysis, c: Comp): ComponentData
    requires WellFormed(run.scene) && c in run.scene.components
  {
    ComponentData(
      c,
      ActiveNessOf(Activeness(run.scene, run.modifications, c)),
      false,
      DependencyRecords(GetDependencies(run.collector, c).dependencies),
      [])
  }

  /** The record the debug pass stores for a component of the session. */
  ghost function GcRecord(run: Analysis, c: Comp): ComponentData
    requires WellFormed(run.scene) && c in run.scene.components
  {
    BaseRecord(run, c).(entrypoint := GcEntry(run, c), dependants := Dependants(run.collector, run.scene.all, c))
  }

  /** An entry point of the mark phase is exactly a debug-pass entry point that can be active. */
  lemma EntryIsGcEntryThatCanBeActive(run: Analysis, c: Comp)
    requires AnalysisValid(run) && c in run.scene.components
    ensures IsEntry(run, c) <==> GcEntry(run, c) && CanBeActive(run, c)
  {
  }

  /** A component is on one of the GameObjects `ts` exactly when its own GameObject is one of them. */
  lemma OnFirstIsOwnGameObject(sc: Scene, ts: seq<Comp>, c: Comp)
    requires WellFormed(sc) && c in sc.components && forall k :: 0 <= k < |ts| ==> ts[k] in sc.transforms
    ensures OnFirst(sc, ts, |ts|, c) <==> TransformOf(sc, c) in ts
  {
    if TransformOf(sc, c) in ts {
      var k :| 0 <= k < |ts| && ts[k] == TransformOf(sc, c);
      assert c in Attached(sc, ts[k]);
    }
  }

  /** Every component of an active-able GameObject belongs to the session. */
  lemma ActiveAbleComponentsInSession(sc: Scene, mods: ModificationsContainer, ts: seq<Comp>)
    requires WellFormed(sc)
    requires forall t :: t in ts ==> t in sc.transforms && ActiveAble(sc, mods, t)
    ensures forall k :: 0 <= k < |ts| ==> ts[k] in sc.transforms
    ensures forall k, c :: 0 <= k < |ts| && c in Attached(sc, ts[k]) ==> c in sc.all
  {
    forall k | 0 <= k < |ts| ensures ts[k] in sc.transforms && ts[k] in sc.all {
      assert ts[k] in ts;
      ActiveAbleInSession(sc, mods, ts[k]);
    }
  }

  /**
   * The first entry-point pass of CollectDataForGc: every component flagged
   * as an entry point on an active-able GameObject becomes an entry point.
   * All those components belong to the session, so this pass cannot fail.
   */
  method FlagActiveAbleEntrypoints(run: Analysis, data: GcMap) returns (flagged: GcMap)
    requires WellFormed(run.scene)
    requires forall c :: c in data <==> c in run.scene.all
    ensures flagged.Keys == data.Keys
    ensures forall c :: c in data ==>
              c in run.scene.components
              && flagged[c] == data[c].(entrypoint := data[c].entrypoint
                                                    || (GetDependencies(run.collector, c).entrypoint
                                                        && ActiveAble(run.scene, run.modifications, TransformOf(run.scene, c))))
  {
    var sc := run.scene;
    var gameObjects := CollectAllActiveAbleGameObjects(sc, run.modifications);
    ActiveAbleComponentsInSession(sc, run.modifications, gameObjects);
    var result := SetEntrypointsAll(sc, run.collector, data, gameObjects, true);
    flagged := result.value;
    forall c | c in data
      ensures c in sc.components
              && flagged[c] == data[c].(entrypoint := data[c].entrypoint
                                                    || (GetDependencies(run.collector, c).entrypoint
                                                        && ActiveAble(sc, run.modifications, TransformOf(sc, c))))
    {
      ActiveAbleOnFirst(sc, run.modifications, gameObjects, c);
    }
  }

  /** A component is on one of the collected active-able GameObjects exactly when its own GameObject is active-able. */
  lemma ActiveAbleOnFirst(sc: Scene, mods: ModificationsContainer, gameObjects: seq<Comp>, c: Comp)
    requires WellFormed(sc) && c in sc.all
    requires forall t :: t in gameObjects ==> t in sc.transforms && ActiveAble(sc, mods, t)
    requires forall t :: t in sc.transforms && ActiveAble(sc, mods, t) ==> t in gameObjects
    ensures c in sc.components
    ensures OnFirst(sc, gameObjects, |gameObjects|, c) <==> ActiveAble(sc, mods, TransformOf(sc, c))
  {
    OnFirstIsOwnGameObject(sc, gameObjects, c);
  }

  /**
   * The second entry-point pass of CollectDataForGc: every component of an
   * excluded GameObject becomes an entry point. It fails when one of those
   * components has no record, that is, lies outside the session.
   */
  method FlagExcludedEntrypoints(run: Analysis, flagged: GcMap) returns (result: Option<GcMap>)
    requires WellFormed(run.scene) && forall t :: t in run.exclusions ==> t in run.scene.transforms
    requires forall c :: c in flagged <==> c in run.scene.all
    ensures result.None? <==>
              exists k, c :: 0 <= k < |run.exclusions| && c in Attached(run.scene, run.exclusions[k])
                             && c !in run.scene.all
    ensures result.Some? ==> result.value.Keys == flagged.Keys
    ensures result.Some? ==> forall c :: c in flagged ==>
              && c in run.scene.components
              && result.value[c] == flagged[c].(entrypoint := flagged[c].entrypoint
                                                              || TransformOf(run.scene, c) in run.exclusions)
  {
    var sc := run.scene;
    result := SetEntrypointsAll(sc, run.collector, flagged, run.exclusions, false);
    if result.Some? {
      forall c | c in flagged
        ensures && c in sc.components
                && result.value[c] == flagged[c].(entrypoint := flagged[c].entrypoint
                                                                || TransformOf(sc, c) in run.exclusions)
      {
        OnFirstIsOwnGameObject(sc, run.exclusions, c);
      }
    }
  }

  /**
   * The entry-point passes of CollectDataForGc: the flagged components of
   * the active-able GameObjects, then every component of the excluded
   * GameObjects. The second pass fails when one of those has no record.
   */
  method SetGcEntrypoints(run: Analysis, data: GcMap) returns (result: Option<GcMap>)
    requires WellFormed(run.scene) && forall t :: t in run.exclusions ==> t in run.scene.transforms
    requires forall c :: c in data <==> c in run.scene.all
    ensures result.None? <==>
              exists k, c :: 0 <= k < |run.exclusions| && c in Attached(run.scene, run.exclusions[k])
                             && c !in run.scene.all
    ensures result.Some? ==> result.value.Keys == data.Keys
    ensures result.Some? ==> forall c :: c in data ==>
              && c in run.scene.components
              && result.value[c] == data[c].(entrypoint := data[c].entrypoint || GcEntry(run, c))
              && result.value[c].dependants == data[c].dependants
  {
    var flagged := FlagActiveAbleEntrypoints(run, data);
    result := FlagExcludedEntrypoints(run, flagged);
    if result.Some? {
      forall c | c in data
        ensures && c in run.scene.components
                && result.value[c] == data[c].(entrypoint := data[c].entrypoint || GcEntry(run, c))
                && result.value[c].dependants == data[c].dependants
      {
        GcEntryOfPasses(run, c, data[c], flagged[c], result.value[c]);
      }
    }
  }

  /** A record whose flag went through both entry-point passes is flagged exactly when the component is a GcEntry. */
  lemma GcEntryOfPasses(run: Analysis, c: Comp, base: ComponentData, flagged: ComponentData, excluded: ComponentData)
    requires WellFormed(run.scene) && c in run.scene.components
    requires flagged == base.(entrypoint := base.entrypoint
                                            || (GetDependencies(run.collector, c).entrypoint
                                                && ActiveAble(run.scene, run.modifications, TransformOf(run.scene, c))))
    requires excluded == flagged.(entrypoint := flagged.entrypoint || TransformOf(run.scene, c) in run.exclusions)
    ensures excluded == base.(entrypoint := base.entrypoint || GcEntry(run, c))
    ensures excluded.dependants == base.dependants
  {
  }

  /** A record that went through the three passes of CollectDataForGc is the component's GcRecord. */
  lemma GcRecordOfPasses(run: Analysis, c: Comp, base: ComponentData, flagged: ComponentData, complete: ComponentData)
    requires WellFormed(run.scene) && c in run.scene.components
    requires base == BaseRecord(run, c)
    requires flagged == base.(entrypoint := base.entrypoint || GcEntry(run, c))
    requires complete == flagged.(dependants := Dependants(run.collector, run.scene.all, c))
    ensures complete == GcRecord(run, c)
  {
  }

  /** Maps that went through the three passes of CollectDataForGc hold the GcRecord of each component. */
  lemma GcDataOfPasses(run: Analysis, data: GcMap, flagged: GcMap, complete: GcMap)
    requires WellFormed(run.scene)
    requires forall c :: c in data ==> c in run.scene.components && data[c] == BaseRecord(run, c)
    requires flagged.Keys == data.Keys && complete.Keys == flagged.Keys
    requires forall c :: c in data ==>
               c in run.scene.components && flagged[c] == data[c].(entrypoint := data[c].entrypoint || GcEntry(run, c))
    requires forall d :: d in flagged ==> complete[d] == flagged[d].(dependants := Dependants(run.collector, run.scene.all, d))
    ensures forall c :: c in complete ==> c in run.scene.components && complete[c] == GcRecord(run, c)
  {
    forall c | c in complete
      ensures c in run.scene.components && complete[c] == GcRecord(run, c)
    {
      GcRecordOfPasses(run, c, data[c], flagged[c], complete[c]);
    }
  }

  /**
   * The passes of CollectDataForGc after the first: the entry-point flags,
   * then the incoming edges.
   */
  method CompleteGcData(run: Analysis, data: GcMap) returns (result: Option<GcMap>)
    requires WellFormed(run.scene) && forall t :: t in run.exclusions ==> t in run.scene.transforms
    requires forall c :: c in data <==> c in run.scene.all
    requires forall c :: c in data ==> c in run.scene.components && data[c] == BaseRecord(run, c)
    requires forall c :: c in data ==> data[c].dependants == []
    ensures result.None? <==>
              exists k, c :: 0 <= k < |run.exclusions| && c in Attached(run.scene, run.exclusions[k])
                             && c !in run.scene.all
    ensures result.Some? ==> forall c :: c in result.value <==> c in run.scene.all
    ensures result.Some? ==> forall c :: c in result.value ==>
              c in run.scene.components && result.value[c] == GcRecord(run, c)
  {
    var entries := SetGcEntrypoints(run, data);
    if entries.None? {
      return None;
    }
    var withDependants := AddDependants(run.scene, run.collector, entries.value);
    GcDataOfPasses(run, data, entries.value, withDependants);
    return Some(withDependants);
  }

  class FindUnusedObjectsProcessor {
    const session: Session
    const modifications: ModificationsContainer
    /** The result of ComponentDependencyCollector.CollectAllUsages on this session. */
    const collector: Collector
    const exclusions: seq<Comp>
    const noConfigureMergeBone: bool

    /** Mark-and-sweep state: the keep-reason mask of each marked component, the pending queue, the activeness cache. */
    var marked: map<Comp, set<DependencyType>>
    var processPending: seq<(Comp, bool)>
    var activeNessCache: map<Comp, Option<bool>>

    function Run(): Analysis {
      Analysis(session.scene, modifications, collector, exclusions)
    }

    /** What ConfigureMergeBone sees: the scene, the overlay, the marks and the session's current state. */
    ghost function Context(): MergeContext
      reads this`marked, session
    {
      MergeContext(session.scene, modifications, marked, session.destroyedGameObjects,
                   session.destroyedComponents, session.mergeBones)
    }

    /** Every cached activeness is the resolved one. */
    ghost predicate CacheValid()
      requires AnalysisValid(Run())
      reads this`activeNessCache
    {
      forall c :: c in activeNessCache ==>
        c in session.scene.components && activeNessCache[c] == Activeness(session.scene, modifications, c)
    }

    constructor(session: Session, modifications: ModificationsContainer, collector: Collector,
                exclusions: seq<Comp>, noConfigureMergeBone: bool)
      requires AnalysisValid(Analysis(session.scene, modifications, collector, exclusions))
      ensures this.session == session && this.modifications == modifications && this.collector == collector
      ensures this.exclusions == exclusions && this.noConfigureMergeBone == noConfigureMergeBone
      ensures marked == map[] && processPending == [] && activeNessCache == map[]
    {
      this.session := session;
      this.modifications := modifications;
      this.collector := collector;
      this.exclusions := exclusions;
      this.noConfigureMergeBone := noConfigureMergeBone;
      marked := map[];
      processPending := [];
      activeNessCache := map[];
    }

    /** GetActiveness: the cached activeness, computed and cached on first use. */
    method GetActiveness(component: Comp) returns (activeness: Option<bool>)
      modifies this`activeNessCache
      requires AnalysisValid(Run()) && CacheValid() && component in session.scene.components
      ensures CacheValid()
      ensures activeness == Activeness(session.scene, modifications, component)
      ensures component in activeNessCache
      ensures old(activeNessCache).Keys <= activeNessCache.Keys
      ensures forall c :: c in old(activeNessCache) ==> activeNessCache[c] == old(activeNessCache)[c]
      ensures forall c :: c in activeNessCache ==>
                c in old(activeNessCache)
                || (c in session.scene.components && Rank(session.scene, c) <= Rank(session.scene, component))
      decreases Rank(session.scene, component), 1
    {
      if component in activeNessCache {
        return activeNessCache[component];
      }
      activeness := ComputeActiveness(component);
      assert component !in activeNessCache;
      activeNessCache := activeNessCache[component := activeness];
    }

    /**
     * ComputeActiveness: true for the avatar root; otherwise false when the
     * inherited activeness or the component's own flag is false, true when
     * both are true, and unknown (None) in every other case.
     */
    method ComputeActiveness(component: Comp) returns (activeness: Option<bool>)
      modifies this`activeNessCache
      requires AnalysisValid(Run()) && CacheValid() && component in session.scene.components
      ensures CacheValid()
      ensures activeness == Activeness(session.scene, modifications, component)
      ensures old(activeNessCache).Keys <= activeNessCache.Keys
      ensures forall c :: c in old(activeNessCache) ==> activeNessCache[c] == old(activeNessCache)[c]
      ensures forall c :: c in activeNessCache ==>
                c in old(activeNessCache)
                || (c in session.scene.components && Rank(session.scene, c) < Rank(session.scene, component))
      decreases Rank(session.scene, component), 0
    {
      var sc := session.scene;
      if sc.root == component {
        return Some(true);
      }
      var parentActiveness: Option<bool>;
      if KindOf(sc, component) == Transform {
        match ParentOf(sc, component)
        case None =>
          parentActiveness := Some(true);
        case Some(p) =>
          parentActiveness := GetActiveness(p);
      } else {
        parentActiveness := GetActiveness(TransformOf(sc, component));
      }
      if parentActiveness == Some(false) {
        return Some(false);
      }
      var local := LocalActiveness(sc, modifications, component);
      if local == Some(false) {
        return Some(false);
      }
      if parentActiveness == Some(true) && local == Some(true) {
        return Some(true);
      }
      return None;
    }

    /**
     * MarkComponent: skips a component that is never active when the edge
     * asks for that check; adds `types` to the mask of a marked component;
     * otherwise marks it with `types` and queues it with its `canBeActive` flag.
     */
    method MarkComponent(component: Comp, ifTargetCanBeEnabled: bool, types: set<DependencyType>, ghost g: Graph)
      modifies this`marked, this`processPending, this`activeNessCache
      requires AnalysisValid(Run()) && CacheValid() && ActiveMatches(Run(), g, component)
      ensures CacheValid()
      ensures (marked, processPending) ==
                MarkOutcome(g, old(marked), old(processPending), component, ifTargetCanBeEnabled, types)
    {
      var activeness := GetActiveness(component);
      if ifTargetCanBeEnabled && activeness == Some(false) {
        return;
      }
      if component in marked {
        marked := marked[component := marked[component] + types];
      } else {
        processPending := processPending + [(component, activeness != Some(false))];
        marked := marked[component := types];
      }
    }
  
    /**
     * The inner loop of the entry-point marking: each component on the
     * GameObject of `t` (only those the collector flags as entry points when
     * `onlyEntrypoints`) is marked for Normal use when it can be active.
     */
    method MarkComponentsOf(t: Comp, onlyEntrypoints: bool, ghost g: Graph)
      modifies this`marked, this`processPending, this`activeNessCache
      requires AnalysisValid(Run()) && CacheValid() && SeedState(g, marked, processPending)
      requires t in session.scene.transforms
      requires SeedCandidates(Run(), g, t, onlyEntrypoints)
      ensures CacheValid() && SeedState(g, marked, processPending)
      ensures old(marked).Keys <= marked.Keys
      ensures Covered(Run(), g, t, onlyEntrypoints, marked.Keys)
    {
      var components := Attached(session.scene, t);
      var j := 0;
      while j < |components|
        invariant 0 <= j <= |components|
        invariant CacheValid() && SeedState(g, marked, processPending)
        invariant old(marked).Keys <= marked.Keys
        invariant SeedPrefixMarked(g, collector, components, j, onlyEntrypoints, marked.Keys)
      {
        var component := components[j];
        ghost var before := marked.Keys;
        if !onlyEntrypoints || GetDependencies(collector, component).entrypoint {
          assert component in Attached(session.scene, t);
          MarkSeed(component, g);
        }
        SeedPrefixNext(g, collector, components, j, onlyEntrypoints, before, marked.Keys);
        j := j + 1;
      }
    }

    /** Marks an entry-point candidate with the `Normal` usage when it can be active. */
    method MarkSeed(component: Comp, ghost g: Graph)
      modifies this`marked, this`processPending, this`activeNessCache
      requires AnalysisValid(Run()) && CacheValid() && SeedState(g, marked, processPending)
      requires ActiveMatches(Run(), g, component) && (component in g.active ==> component in g.seeds)
      ensures CacheValid() && SeedState(g, marked, processPending)
      ensures old(marked).Keys <= marked.Keys
      ensures component in g.active ==> component in marked
    {
      SeedStep(g, marked, processPending, component);
      MarkComponent(component, true, {Normal}, g);
    }

    /**
     * The outer loops of the entry-point marking: MarkComponentsOf on each
     * GameObject of `gameObjects`, which are all active-able when
     * `onlyEntrypoints` and all excluded otherwise.
     */
    method MarkComponentsOfAll(gameObjects: seq<Comp>, onlyEntrypoints: bool, ghost g: Graph)
      modifies this`marked, this`processPending, this`activeNessCache
      requires AnalysisValid(Run()) && CacheValid() && SeedState(g, marked, processPending)
      requires forall t :: t in gameObjects ==> t in session.scene.transforms
      requires forall k :: 0 <= k < |gameObjects| ==> SeedCandidates(Run(), g, gameObjects[k], onlyEntrypoints)
      ensures CacheValid() && SeedState(g, marked, processPending)
      ensures old(marked).Keys <= marked.Keys
      ensures forall k :: 0 <= k < |gameObjects| ==> Covered(Run(), g, gameObjects[k], onlyEntrypoints, marked.Keys)
    {
      var i := 0;
      while i < |gameObjects|
        invariant 0 <= i <= |gameObjects|
        invariant CacheValid() && SeedState(g, marked, processPending)
        invariant old(marked).Keys <= marked.Keys
        invariant forall k :: 0 <= k < i ==> Covered(Run(), g, gameObjects[k], onlyEntrypoints, marked.Keys)
      {
        ghost var before := marked.Keys;
        MarkComponentsOf(gameObjects[i], onlyEntrypoints, g);
        CoveredNext(Run(), g, gameObjects, i, onlyEntrypoints, before, marked.Keys);
        i := i + 1;
      }
    }

    /** The first seeding pass: the flagged components of every active-able GameObject. */
    method MarkActiveAbleEntryPoints(ghost g: Graph) returns (gameObjects: seq<Comp>)
      modifies this`marked, this`processPending, this`activeNessCache
      requires AnalysisValid(Run()) && CacheValid() && Matches(Run(), g) && SeedState(g, marked, processPending)
      ensures CacheValid() && SeedState(g, marked, processPending)
      ensures forall t :: t in gameObjects ==> t in session.scene.transforms
      ensures forall t :: t in session.scene.transforms && ActiveAble(session.scene, modifications, t) ==> t in gameObjects
      ensures forall k :: 0 <= k < |gameObjects| ==> Covered(Run(), g, gameObjects[k], true, marked.Keys)
    {
      gameObjects := CollectAllActiveAbleGameObjects(session.scene, modifications);
      forall k | 0 <= k < |gameObjects| ensures SeedCandidates(Run(), g, gameObjects[k], true) {
        AttachedMatch(Run(), g, gameObjects[k], true);
      }
      MarkComponentsOfAll(gameObjects, true, g);
    }

    /** The second seeding pass: every component of an excluded GameObject. */
    method MarkExcludedEntryPoints(ghost g: Graph)
      modifies this`marked, this`processPending, this`activeNessCache
      requires AnalysisValid(Run()) && CacheValid() && Matches(Run(), g) && SeedState(g, marked, processPending)
      ensures CacheValid() && SeedState(g, marked, processPending)
      ensures old(marked).Keys <= marked.Keys
      ensures forall k :: 0 <= k < |exclusions| ==> Covered(Run(), g, exclusions[k], false, marked.Keys)
    {
      forall k | 0 <= k < |exclusions| ensures SeedCandidates(Run(), g, exclusions[k], false) {
        AttachedMatch(Run(), g, exclusions[k], false);
      }
      MarkComponentsOfAll(exclusions, false, g);
    }

    /** The entry points: each flagged component of an active-able GameObject, then every component of an excluded GameObject. */
    method MarkEntryPoints(ghost g: Graph)
      modifies this`marked, this`processPending, this`activeNessCache
      requires AnalysisValid(Run()) && CacheValid() && Matches(Run(), g) && marked == map[] && processPending == []
      ensures CacheValid()
      ensures SeedState(g, marked, processPending) && g.seeds <= marked.Keys
    {
      var gameObjects := MarkActiveAbleEntryPoints(g);
      ghost var afterFlagged := marked.Keys;
      MarkExcludedEntryPoints(g);
      CoveredGrows(Run(), g, gameObjects, |gameObjects|, true, afterFlagged, marked.Keys);
      SeedsCovered(Run(), g, marked, gameObjects);
    }

    /**
     * One turn of the propagation loop for a dequeued component: when the
     * collector has a record for it, each dependency that applies (the edge
     * holds even when this component is disabled, or it can be active) is
     * marked with the edge's usage types, checking the target's activeness
     * unless the edge keeps a disabled target.
     */
    method ProcessDependencies(component: Comp, canBeActive: bool, ghost g: Graph,
                               ghost P: set<Comp>, ghost F0: set<EdgeId>) returns (ghost F: set<EdgeId>)
      modifies this`marked, this`processPending, this`activeNessCache
      requires AnalysisValid(Run()) && CacheValid() && NodesMatch(Run(), g)
      requires MarkInvariant(g, marked, processPending, P, F0) && FollowedUpTo(g, F0, P, component, 0)
      requires component in P && canBeActive == (component in g.active)
      ensures CacheValid() && MarkInvariant(g, marked, processPending, P, F) && FollowedAll(g, F, P)
    {
      F := F0;
      var dependencies := TryGetDependencies(collector, component);
      if dependencies.None? {
        FinishComponent(g, F, P, component, 0);
        return;
      }
      var edges := dependencies.value.dependencies;
      var k := 0;
      while k < |edges|
        invariant 0 <= k <= |edges|
        invariant CacheValid() && MarkInvariant(g, marked, processPending, P, F)
        invariant FollowedUpTo(g, F, P, component, k)
      {
        var dependency := edges[k];
        FollowEdge(g, marked, processPending, P, F, component, k);
        var ifActive := !dependency.flags.evenIfThisIsDisabled;
        if !(ifActive && !canBeActive) {
          var ifTargetCanBeEnabled := !dependency.flags.evenIfTargetIsDisabled;
          MarkComponent(dependency.target, ifTargetCanBeEnabled, dependency.types, g);
        }
        FollowedNext(g, F, P, component, k);
        F := F + {(component, k)};
        k := k + 1;
      }
      FinishComponent(g, F, P, component, k);
    }

    /** Dequeues the head of the pending queue and processes its dependencies. */
    method ProcessNext(ghost g: Graph, ghost P0: set<Comp>, ghost F0: set<EdgeId>) returns (ghost P: set<Comp>, ghost F: set<EdgeId>)
      modifies this`marked, this`processPending, this`activeNessCache
      requires AnalysisValid(Run()) && CacheValid() && NodesMatch(Run(), g)
      requires MarkInvariant(g, marked, processPending, P0, F0) && FollowedAll(g, F0, P0) && processPending != []
      ensures CacheValid() && MarkInvariant(g, marked, processPending, P, F) && FollowedAll(g, F, P)
      ensures g.nodes - P < g.nodes - P0
    {
      var component, canBeActive := PopPending(g, P0, F0);
      P := P0 + {component};
      F := ProcessDependencies(component, canBeActive, g, P, F0);
    }

    /** Takes the head of the pending queue: it becomes processed, with none of its edges followed yet. */
    method PopPending(ghost g: Graph, ghost P0: set<Comp>, ghost F0: set<EdgeId>) returns (component: Comp, canBeActive: bool)
      modifies this`processPending
      requires MarkInvariant(g, marked, processPending, P0, F0) && FollowedAll(g, F0, P0) && processPending != []
      ensures processPending == old(processPending[1..]) && (component, canBeActive) == old(processPending[0])
      ensures component in g.nodes && component !in P0 && canBeActive == (component in g.active)
      ensures MarkInvariant(g, marked, processPending, P0 + {component}, F0)
      ensures FollowedUpTo(g, F0, P0 + {component}, component, 0)
    {
      Dequeue(g, marked, processPending, P0, F0);
      component, canBeActive := processPending[0].0, processPending[0].1;
      processPending := processPending[1..];
    }

    /**
     * The propagation loop: dequeue a pending component and process its
     * dependencies until the queue is empty. The marked set is then the least
     * closed set, and each mask holds exactly the usage types of the edges
     * (and entry points) that keep the component.
     */
    method Propagate(ghost g: Graph) returns (ghost P: set<Comp>, ghost F: set<EdgeId>)
      modifies this`marked, this`processPending, this`activeNessCache
      requires AnalysisValid(Run()) && CacheValid() && NodesMatch(Run(), g)
      requires MarkInvariant(g, marked, processPending, {}, {})
      ensures CacheValid() && processPending == []
      ensures MarkInvariant(g, marked, processPending, P, F) && FollowedAll(g, F, P)
    {
      P, F := {}, {};
      while processPending != []
        invariant CacheValid() && MarkInvariant(g, marked, processPending, P, F) && FollowedAll(g, F, P)
        decreases g.nodes - P
      {
        P, F := ProcessNext(g, P, F);
      }
    }

    /**
     * The sweep: every component of the session that is still there and not
     * marked is destroyed, a Transform by destroying its whole GameObject.
     */
    method Sweep()
      modifies session`destroyedGameObjects, session`destroyedComponents
      requires WellFormed(session.scene)
      requires session.destroyedGameObjects == {} && session.destroyedComponents == {}
      ensures session.destroyedGameObjects <= UnmarkedGameObjects(session.scene, marked.Keys)
      ensures session.destroyedComponents <= UnmarkedComponents(session.scene, marked.Keys)
      ensures forall c :: c in session.scene.all ==>
                (session.IsGone(c) <==>
                 c !in marked || Destroyed(session.scene, UnmarkedGameObjects(session.scene, marked.Keys),
                                           TransformOf(session.scene, c)))
    {
      var sc := session.scene;
      var i := 0;
      while i < |sc.all|
        invariant 0 <= i <= |sc.all|
        invariant session.destroyedGameObjects <= UnmarkedGameObjects(sc, marked.Keys)
        invariant session.destroyedComponents <= UnmarkedComponents(sc, marked.Keys)
        invariant forall k :: 0 <= k < i && sc.all[k] !in marked ==>
                    Gone(sc, session.destroyedGameObjects, session.destroyedComponents, sc.all[k])
      {
        var component := sc.all[i];
        ghost var D0, C0 := session.destroyedGameObjects, session.destroyedComponents;
        if !session.IsGone(component) {
          if KindOf(sc, component) == Transform {
            if component !in marked {
              session.DestroyGameObject(component);
              assert Destroyed(sc, session.destroyedGameObjects, component);
            }
          } else {
            if component !in marked {
              session.DestroyComponent(component);
            }
          }
        }
        if Gone(sc, D0, C0, component) {
          GoneMonotone(sc, D0, C0, session.destroyedGameObjects, session.destroyedComponents, component);
        }
        SweptStayGone(sc, marked.Keys, i, D0, C0, session.destroyedGameObjects, session.destroyedComponents);
        i := i + 1;
      }
      SweepOutcome(sc, marked.Keys, session.destroyedGameObjects, session.destroyedComponents);
    }

    /**
     * MarkAndSweep: marks from the entry points, propagates along the
     * dependency edges and destroys what is left unmarked. The marked set is
     * the least set closed under the edges that can take effect, each mask
     * holds exactly the usage types it is kept for, and a component of the
     * session is gone exactly when it or the GameObject of an ancestor is
     * unmarked.
     */
    method MarkAndSweep()
      modifies this`marked, this`processPending, this`activeNessCache
      modifies session`destroyedGameObjects, session`destroyedComponents
      requires AnalysisValid(Run()) && CacheValid() && marked == map[] && processPending == []
      requires session.destroyedGameObjects == {} && session.destroyedComponents == {}
      ensures CacheValid() && processPending == []
      ensures LeastClosed(GraphOf(Run()), marked.Keys)
      ensures forall d, t :: d in marked ==> (t in marked[d] <==> Reason(GraphOf(Run()), marked.Keys, d, t))
      ensures session.destroyedGameObjects <= UnmarkedGameObjects(session.scene, marked.Keys)
      ensures session.destroyedComponents <= UnmarkedComponents(session.scene, marked.Keys)
      ensures forall c :: c in session.scene.all ==>
                (session.IsGone(c) <==>
                 c !in marked || Destroyed(session.scene, UnmarkedGameObjects(session.scene, marked.Keys),
                                           TransformOf(session.scene, c)))
    {
      ghost var g := GraphOf(Run());
      GraphOfMatches(Run());
      MarkEntryPoints(g);
      SeedingDone(g, marked, processPending);
      ghost var P, F := Propagate(g);
      MarkingDone(g, marked, P, F);
      Sweep();
    }

    /**
     * ConfigureMergeBone: the recursive configuration from the avatar root.
     * The session gains MergeBone exactly on the live Transforms under the
     * root that can be merged. When the root itself was destroyed nothing
     * is configured.
     */
    method ConfigureMergeBone()
      modifies session`mergeBones
      requires ContextValid(Context())
      ensures Destroyed(session.scene, session.destroyedGameObjects, session.scene.root) ==>
                session.mergeBones == old(session.mergeBones)
      ensures !Destroyed(session.scene, session.destroyedGameObjects, session.scene.root) ==>
                forall s :: s in session.mergeBones <==>
                  s in old(session.mergeBones) || MergedBelow(old(Context()), session.scene.root, s)
    {
      var sc := session.scene;
      if Destroyed(sc, session.destroyedGameObjects, sc.root) {
        return;
      }
      assert IsAncestorOrSelf(sc, sc.root, sc.root);
      var _ := ConfigureRecursive(session, modifications, marked, sc.root, Context());
    }

    /**
     * ProcessNew: mark and sweep, then configure MergeBone unless that is
     * switched off.
     */
    method ProcessNew()
      modifies this`marked, this`processPending, this`activeNessCache
      modifies session`destroyedGameObjects, session`destroyedComponents, session`mergeBones
      requires AnalysisValid(Run()) && marked == map[] && processPending == [] && activeNessCache == map[]
      requires session.destroyedGameObjects == {} && session.destroyedComponents == {}
      ensures LeastClosed(GraphOf(Run()), marked.Keys)
      ensures forall d, t :: d in marked ==> (t in marked[d] <==> Reason(GraphOf(Run()), marked.Keys, d, t))
      ensures forall c :: c in session.scene.all ==>
                (session.IsGone(c) <==>
                 c !in marked || Destroyed(session.scene, UnmarkedGameObjects(session.scene, marked.Keys),
                                           TransformOf(session.scene, c)))
      ensures ContextValid(Context())
      ensures forall s :: s in session.mergeBones <==>
                s in old(session.mergeBones)
                || (&& !noConfigureMergeBone
                    && !Destroyed(session.scene, session.destroyedGameObjects, session.scene.root)
                    && MergedBelow(Context().(mergeBones := old(session.mergeBones)), session.scene.root, s))
    {
      MarkAndSweep();
      SweptContextValid(Context());
      if !noConfigureMergeBone {
        ConfigureMergeBone();
      }
    }

    /** The record of one component after the first pass: the stored activeness and the outgoing edges. */
    method ComponentRecord(component: Comp) returns (record: ComponentData)
      modifies this`activeNessCache
      requires AnalysisValid(Run()) && CacheValid() && component in session.scene.components
      ensures CacheValid() && record == BaseRecord(Run(), component)
    {
      var activeness := ComputeActiveness(component);
      var records := RecordDependencies(GetDependencies(collector, component).dependencies);
      record := ComponentData(component, ActiveNessOf(activeness), false, records, []);
    }

    /**
     * The first pass of CollectDataForGc: a record per component of the
     * session with its resolved activeness and its outgoing edges.
     */
    method BuildComponentData() returns (data: GcMap)
      modifies this`activeNessCache
      requires AnalysisValid(Run()) && CacheValid()
      ensures CacheValid()
      ensures forall c :: c in data <==> c in session.scene.all
      ensures forall c :: c in data ==>
                && c in session.scene.components
                && data[c] == BaseRecord(Run(), c)
    {
      var sc := session.scene;
      data := map[];
      var i := 0;
      while i < |sc.all|
        invariant 0 <= i <= |sc.all|
        invariant CacheValid()
        invariant forall c :: c in sc.all[..i] ==> c in data
        invariant forall c :: c in data ==> c in sc.all && c in sc.components && data[c] == BaseRecord(Run(), c)
      {
        var component := sc.all[i];
        var record := ComponentRecord(component);
        data := data[component := record];
        assert sc.all[..i + 1] == sc.all[..i] + [component];
        i := i + 1;
      }
      assert sc.all[..i] == sc.all;
    }

    /**
     * CollectDataForGc: the record of every component of the session, with
     * its activeness, entry-point flag, outgoing edges and incoming edges.
     * It fails, as the dictionary lookup does, when a component of an
     * excluded GameObject is not part of the session.
     */
    method CollectDataForGc() returns (result: Option<GcMap>)
      modifies this`activeNessCache
      requires AnalysisValid(Run()) && CacheValid()
      ensures CacheValid()
      ensures result.None? <==>
                exists k, c :: 0 <= k < |exclusions| && c in Attached(session.scene, exclusions[k])
                               && c !in session.scene.all
      ensures result.Some? ==> forall c :: c in result.value <==> c in session.scene.all
      ensures result.Some? ==> forall c :: c in result.value ==>
                c in session.scene.components && result.value[c] == GcRecord(Run(), c)
    {
      var data := BuildComponentData();
      result := CompleteGcData(Run(), data);
    }
  }
}
