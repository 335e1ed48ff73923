/**
 * The debugging record CollectDataForGc attaches to every GameObject: per
 * component, its resolved activeness, whether it is an entry point, and its
 * outgoing and incoming dependency edges.
 */
module GcData {
  import opened Wrappers
  import opened SceneModel
  import opened Dependencies

  /** The three activeness values the record stores. */
  datatype ActiveNess = False | True | Variable

  /** The stored form of a resolved activeness; no two activeness values share one. */
  function ActiveNessOf(a: Option<bool>): (r: ActiveNess)
    ensures r == False <==> a == Some(false)
    ensures r == True <==> a == Some(true)
    ensures r == Variable <==> a.None?
  {
    match a
    case Some(b) => if b then True else False
    case None => Variable
  }

  /** One edge as the record stores it: the component at the other end, the flags and the usage types. */
  datatype DependencyRecord = DependencyRecord(component: Comp, flags: DependencyFlags, types: set<DependencyType>)

  /** The record of one component. */
  datatype ComponentData = ComponentData(
    component: Comp,
    activeness: ActiveNess,
    entrypoint: bool,
    dependencies: seq<DependencyRecord>,
    dependants: seq<DependencyRecord>)

  /** The records, in order, of the edges in `deps` (the edges of `c`) that point at `d`. */
  function IncomingFrom(c: Comp, deps: seq<Dependency>, d: Comp): seq<DependencyRecord>
  {
    if deps == [] then []
    else
      var last := deps[|deps| - 1];
      IncomingFrom(c, deps[..|deps| - 1], d)
        + (if last.target == d then [DependencyRecord(c, last.flags, last.types)] else [])
  }

  /** The records, in the order of `sources` and then of their edges, of every edge from a component of `sources` to `d`. */
  function Dependants(collector: Collector, sources: seq<Comp>, d: Comp): seq<DependencyRecord>
  {
    if sources == [] then []
    else
      var c := sources[|sources| - 1];
      Dependants(collector, sources[..|sources| - 1], d) + IncomingFrom(c, GetDependencies(collector, c).dependencies, d)
  }

  /** The incoming records of `d` from `c` are exactly the edges of `c` that point at `d`. */
  lemma {:induction false} IncomingFromExact(c: Comp, deps: seq<Dependency>, d: Comp, r: DependencyRecord)
    ensures r in IncomingFrom(c, deps, d) <==>
              exists j :: 0 <= j < |deps| && deps[j].target == d && r == DependencyRecord(c, deps[j].flags, deps[j].types)
  {
    if deps != [] {
      var init := deps[..|deps| - 1];
      IncomingFromExact(c, init, d, r);
      if exists j :: 0 <= j < |init| && init[j].target == d && r == DependencyRecord(c, init[j].flags, init[j].types) {
        var j :| 0 <= j < |init| && init[j].target == d && r == DependencyRecord(c, init[j].flags, init[j].types);
        assert deps[j] == init[j];
      }
      if exists j :: 0 <= j < |deps| && deps[j].target == d && r == DependencyRecord(c, deps[j].flags, deps[j].types) {
        var j :| 0 <= j < |deps| && deps[j].target == d && r == DependencyRecord(c, deps[j].flags, deps[j].types);
        if j < |init| {
          assert init[j] == deps[j];
        }
      }
    }
  }

  /** The dependants of `d` are exactly the reversed edges into `d` from the components of `sources`. */
  lemma {:induction false} DependantsAreReversedEdges(collector: Collector, sources: seq<Comp>, d: Comp, r: DependencyRecord)
    ensures r in Dependants(collector, sources, d) <==>
              exists i, j :: 0 <= i < |sources| && 0 <= j < |GetDependencies(collector, sources[i]).dependencies|
                && GetDependencies(collector, sources[i]).dependencies[j].target == d
                && r == DependencyRecord(sources[i], GetDependencies(collector, sources[i]).dependencies[j].flags,
                                         GetDependencies(collector, sources[i]).dependencies[j].types)
  {
    if sources != [] {
      var init := sources[..|sources| - 1];
      var c := sources[|sources| - 1];
      var deps := GetDependencies(collector, c).dependencies;
      DependantsAreReversedEdges(collector, init, d, r);
      IncomingFromExact(c, deps, d, r);
      if r in Dependants(collector, sources, d) {
        if r in Dependants(collector, init, d) {
          var i, j :| 0 <= i < |init| && 0 <= j < |GetDependencies(collector, init[i]).dependencies|
                      && GetDependencies(collector, init[i]).dependencies[j].target == d
                      && r == DependencyRecord(init[i], GetDependencies(collector, init[i]).dependencies[j].flags,
                                               GetDependencies(collector, init[i]).dependencies[j].types);
          assert sources[i] == init[i];
        } else {
          var j :| 0 <= j < |deps| && deps[j].target == d && r == DependencyRecord(c, deps[j].flags, deps[j].types);
          assert sources[|sources| - 1] == c;
        }
      }
      if exists i, j :: 0 <= i < |sources| && 0 <= j < |GetDependencies(collector, sources[i]).dependencies|
                && GetDependencies(collector, sources[i]).dependencies[j].target == d
                && r == DependencyRecord(sources[i], GetDependencies(collector, sources[i]).dependencies[j].flags,
                                         GetDependencies(collector, sources[i]).dependencies[j].types) {
        var i, j :| 0 <= i < |sources| && 0 <= j < |GetDependencies(collector, sources[i]).dependencies|
                && GetDependencies(collector, sources[i]).dependencies[j].target == d
                && r == DependencyRecord(sources[i], GetDependencies(collector, sources[i]).dependencies[j].flags,
                                         GetDependencies(collector, sources[i]).dependencies[j].types);
        if i < |init| {
          assert init[i] == sources[i];
        }
      }
    }
  }

  /** The records of the outgoing edges `deps`, in order: one per edge, naming its target. */
  ghost function DependencyRecords(deps: seq<Dependency>): (records: seq<DependencyRecord>)
    ensures |records| == |deps|
  {
    if deps == [] then []
    else
      var last := deps[|deps| - 1];
      DependencyRecords(deps[..|deps| - 1]) + [DependencyRecord(last.target, last.flags, last.types)]
  }

  /** Copies the outgoing edges of a component into its record, in order. */
  method RecordDependencies(deps: seq<Dependency>) returns (records: seq<DependencyRecord>)
    ensures |records| == |deps|
    ensures forall j :: 0 <= j < |deps| ==>
              records[j] == DependencyRecord(deps[j].target, deps[j].flags, deps[j].types)
    ensures records == DependencyRecords(deps)
  {
    records := [];
    var j := 0;
    while j < |deps|
      invariant 0 <= j <= |deps| && |records| == j
      invariant forall k :: 0 <= k < j ==> records[k] == DependencyRecord(deps[k].target, deps[k].flags, deps[k].types)
      invariant records == DependencyRecords(deps[..j])
    {
      assert deps[..j + 1][..j] == deps[..j];
      records := records + [DependencyRecord(deps[j].target, deps[j].flags, deps[j].types)];
      j := j + 1;
    }
    assert deps[..j] == deps;
  }

  /** The records by component, as the debug pass builds them. */
  type GcMap = map<Comp, ComponentData>

  /** The components a pass sets the entry-point flag on: all of them, or the flagged ones when `onlyEntrypoints`. */
  predicate Wanted(collector: Collector, onlyEntrypoints: bool, c: Comp) {
    onlyEntrypoints ==> GetDependencies(collector, c).entrypoint
  }

  /** `c` is on one of the first `n` GameObjects of `ts`. */
  ghost predicate OnFirst(sc: Scene, ts: seq<Comp>, n: int, c: Comp) {
    exists k :: 0 <= k < n && k < |ts| && ts[k] in sc.transforms && c in Attached(sc, ts[k])
  }

  lemma OnFirstNext(sc: Scene, ts: seq<Comp>, n: int, c: Comp)
    requires 0 <= n < |ts| && ts[n] in sc.transforms
    ensures OnFirst(sc, ts, n + 1, c) <==> OnFirst(sc, ts, n, c) || c in Attached(sc, ts[n])
  {
    if OnFirst(sc, ts, n + 1, c) && !(c in Attached(sc, ts[n])) {
      var k :| 0 <= k < n + 1 && k < |ts| && ts[k] in sc.transforms && c in Attached(sc, ts[k]);
      assert k < n;
    }
  }

  /**
   * Sets the entry-point flag on the wanted `components` of one GameObject.
   * The lookup fails, as the dictionary indexer does, when a wanted
   * component has no record.
   */
  method SetEntrypoints(collector: Collector, data: GcMap, components: seq<Comp>, onlyEntrypoints: bool)
    returns (result: Option<GcMap>)
    ensures result.None? <==> exists c :: c in components && Wanted(collector, onlyEntrypoints, c) && c !in data
    ensures result.Some? ==> result.value.Keys == data.Keys
    ensures result.Some? ==> forall c :: c in data ==>
              result.value[c] == data[c].(entrypoint := data[c].entrypoint
                                                        || (c in components && Wanted(collector, onlyEntrypoints, c)))
  {
    var current := data;
    var j := 0;
    while j < |components|
      invariant 0 <= j <= |components|
      invariant current.Keys == data.Keys
      invariant forall k :: 0 <= k < j && Wanted(collector, onlyEntrypoints, components[k]) ==> components[k] in data
      invariant forall c :: c in data ==>
                  current[c] == data[c].(entrypoint := data[c].entrypoint
                                                       || (c in components[..j] && Wanted(collector, onlyEntrypoints, c)))
    {
      var component := components[j];
      if !onlyEntrypoints || GetDependencies(collector, component).entrypoint {
        if component !in current {
          return None;
        }
        current := current[component := current[component].(entrypoint := true)];
      }
      assert components[..j + 1] == components[..j] + [component];
      j := j + 1;
    }
    assert components[..j] == components;
    return Some(current);
  }

  /** SetEntrypoints on the components of each GameObject of `ts` in turn; fails when any lookup fails. */
  method SetEntrypointsAll(sc: Scene, collector: Collector, data: GcMap, ts: seq<Comp>, onlyEntrypoints: bool)
    returns (result: Option<GcMap>)
    requires forall k :: 0 <= k < |ts| ==> ts[k] in sc.transforms
    ensures result.None? <==>
              exists k, c :: 0 <= k < |ts| && c in Attached(sc, ts[k]) && Wanted(collector, onlyEntrypoints, c)
                             && c !in data
    ensures result.Some? ==> result.value.Keys == data.Keys
    ensures result.Some? ==> forall c :: c in data ==>
              result.value[c] == data[c].(entrypoint := data[c].entrypoint
                                                        || (OnFirst(sc, ts, |ts|, c) && Wanted(collector, onlyEntrypoints, c)))
  {
    var current := data;
    var i := 0;
    while i < |ts|
      invariant 0 <= i <= |ts|
      invariant current.Keys == data.Keys
      invariant forall k, c :: (0 <= k < i && c in Attached(sc, ts[k]) && Wanted(collector, onlyEntrypoints, c))
                               ==> c in data
      invariant forall c :: c in data ==>
                  current[c] == data[c].(entrypoint := data[c].entrypoint
                                                       || (OnFirst(sc, ts, i, c) && Wanted(collector, onlyEntrypoints, c)))
    {
      var next := SetEntrypoints(collector, current, Attached(sc, ts[i]), onlyEntrypoints);
      if next.None? {
        return None;
      }
      forall c | c in data ensures OnFirst(sc, ts, i + 1, c) <==> OnFirst(sc, ts, i, c) || c in Attached(sc, ts[i]) {
        OnFirstNext(sc, ts, i, c);
      }
      current := next.value;
      i := i + 1;
    }
    return Some(current);
  }

  /** Appends to each record the edges of `c` (with edges `deps`) that point at it, in order. */
  method AddIncoming(data: GcMap, c: Comp, deps: seq<Dependency>) returns (result: GcMap)
    ensures result.Keys == data.Keys
    ensures forall d :: d in data ==>
              result[d] == data[d].(dependants := data[d].dependants + IncomingFrom(c, deps, d))
  {
    result := data;
    var j := 0;
    while j < |deps|
      invariant 0 <= j <= |deps|
      invariant result.Keys == data.Keys
      invariant forall d :: d in data ==>
                  result[d] == data[d].(dependants := data[d].dependants + IncomingFrom(c, deps[..j], d))
    {
      var dep := deps[j];
      assert deps[..j + 1][..j] == deps[..j];
      if dep.target in result {
        result := result[dep.target := result[dep.target].(dependants := result[dep.target].dependants
                                                          + [DependencyRecord(c, dep.flags, dep.types)])];
      }
      j := j + 1;
    }
    assert deps[..j] == deps;
  }

  /** The dependants pass: every edge of every component of the session is recorded at its target, when the target has a record. */
  method AddDependants(sc: Scene, collector: Collector, data: GcMap) returns (result: GcMap)
    requires forall d :: d in data ==> data[d].dependants == []
    ensures result.Keys == data.Keys
    ensures forall d :: d in data ==> result[d] == data[d].(dependants := Dependants(collector, sc.all, d))
  {
    result := data;
    var i := 0;
    while i < |sc.all|
      invariant 0 <= i <= |sc.all|
      invariant result.Keys == data.Keys
      invariant forall d :: d in data ==> result[d] == data[d].(dependants := Dependants(collector, sc.all[..i], d))
    {
      var component := sc.all[i];
      assert sc.all[..i + 1][..i] == sc.all[..i];
      result := AddIncoming(result, component, GetDependencies(collector, component).dependencies);
      i := i + 1;
    }
    assert sc.all[..i] == sc.all;
  }
}
