/**
 * The dependency graph produced by ComponentDependencyCollector. The collector
 * itself is not part of this model; the core reads its result.
 */
module Dependencies {
  import opened Wrappers
  import opened SceneModel

  /** Why a component is needed; the keep-reason mask of a component is a set of these. */
  datatype DependencyType = Normal | Parent | ComponentToTransform | Bone

  /** The two conditions an edge may carry. */
  datatype DependencyFlags = DependencyFlags(evenIfThisIsDisabled: bool, evenIfTargetIsDisabled: bool)

  /** One outgoing edge: the component depended on, its flags and its usage types. */
  datatype Dependency = Dependency(target: Comp, flags: DependencyFlags, types: set<DependencyType>)

  /** What the collector records for one component. */
  datatype DependencyInfo = DependencyInfo(entrypoint: bool, dependencies: seq<Dependency>)

  type Collector = map<Comp, DependencyInfo>

  /** Every edge the collector records points at a known component. */
  ghost predicate CollectorWellFormed(sc: Scene, collector: Collector) {
    forall c, i :: c in collector && 0 <= i < |collector[c].dependencies| ==>
      collector[c].dependencies[i].target in sc.components
  }

  /** The record of a component, or None when it lies outside the analysed hierarchy. */
  function TryGetDependencies(collector: Collector, c: Comp): (r: Option<DependencyInfo>)
    ensures r.Some? <==> c in collector
  {
    if c in collector then Some(collector[c]) else None
  }

  /** The record of a component, empty for a component the collector does not know. */
  function GetDependencies(collector: Collector, c: Comp): (r: DependencyInfo)
    ensures c !in collector ==> !r.entrypoint && r.dependencies == []
  {
    if c in collector then collector[c] else DependencyInfo(false, [])
  }
}
