# Unused-object removal and MergeBone auto-configuration, modelled in Dafny

This project models two steps of the avatar optimizer's build pipeline.

**FindUnusedObjectsProcessor** is the trace-and-optimize step that removes
unused objects. It works in four parts:

- It resolves the three-valued *activeness* of each component:
  - `Some(true)`: the component can be active;
  - `Some(false)`: it is never active;
  - `None`: it depends on runtime state.
  This is computed from the GameObject hierarchy, the components' own
  `enabled` flags and the animation/override overlay, and it is cached.
- It builds the entry points:
  - a breadth-first walk from the avatar root yields every GameObject that
    may be active;
  - the walk prunes a GameObject whose `m_IsActive` is constantly false,
    together with its whole subtree.
- It marks every component reachable from the entry points along the
  dependency edges that can take effect, with a keep-reason mask of usage
  types per component. It then destroys every unmarked component of the
  session; an unmarked Transform takes its whole GameObject with it.
- It adds a `MergeBone` component, children first, to every live bone that:
  - carries nothing but its Transform;
  - is used only as a bone, parent or transform reference;
  - has no animated local pose.

It also has a debugging pass, `CollectDataForGc`. For each component it
records the resolved activeness, the entry-point flag, and the outgoing and
incoming edges.

**InternalAutoFreezeMeaninglessBlendShapeProcessor** is a skinned-mesh step.
It adds to the `FreezeBlendShape` component every blend shape of the mesh
that no vertex carries a delta for.

## Modules

- `SceneModel` (`scene.dfy`): components, the transform tree and the
  session's component list.
  - A GameObject is identified by the id of its Transform.
  - Acyclicity comes from a depth per Transform.
- `Modifications` (`modifications.dfy`): the read-only property overlay.
- `Dependencies` (`dependencies.dfy`): the dependency graph the collector
  produces.
- `ActivenessResolver` (`activeness.dfy`): the resolved activeness, as a
  function on the tree.
- `EntryPoints` (`entry_points.dfy`): the breadth-first walk as a method,
  proved against the predicate `ActiveAble`.
- `Marking` (`marking.dfy`): what the mark phase computes, independent of
  the worklist:
  - the least set closed under the firing edges (`LeastClosed`);
  - why each usage type is in a mask (`Reason`).
- `Worklist` (`worklist.dfy`): the invariant of the worklist loop, and one
  lemma per step.
- `Sessions` (`session.dfy`): the session as a class whose fields the
  processors update:
  - the destroyed GameObjects and components;
  - the GameObjects carrying `MergeBone`.
- `MergeBoneConfig` (`merge_bone.dfy`):
  - `CanMerge`: the merge decision as a recursive specification;
  - `ConfigureRecursive`: the recursive method proved against it.
- `GcData` (`gc_data.dfy`): the debug records and their passes.
- `Processor` (`processor.dfy`): the class `FindUnusedObjectsProcessor`, its
  fields (mask map, pending queue, activeness cache) and its methods.
- `AutoFreezeMeaninglessBlendShape` (`blend_shapes.dfy`): the blend-shape
  step.

## Model

| member | source | states |
|---|---|---|
| Modifications.GetModifiedProperties | Editor/Processors/TraceAndOptimize/FindUnusedObjectsProcessor.cs:351 | an object with no modified properties yields the empty map |
| Modifications.GetConstantValue | Editor/Processors/TraceAndOptimize/FindUnusedObjectsProcessor.cs:78 | an unmodified property yields the current value; the result is unknown exactly when the property is modified to a varying value |
| Dependencies.TryGetDependencies | Editor/Processors/TraceAndOptimize/FindUnusedObjectsProcessor.cs:172-173 | a record is returned exactly for the components the collector knows |
| Dependencies.GetDependencies | Editor/Processors/TraceAndOptimize/FindUnusedObjectsProcessor.cs:161 | a component the collector does not know is no entry point and has no edges |
| ActivenessResolver.LocalActiveness | Editor/Processors/TraceAndOptimize/FindUnusedObjectsProcessor.cs:73-116 | a Transform reads its GameObject's `m_IsActive`; the five types with `enabled` read `m_Enabled`; the thirteen types without it are true; any other type is unknown |
| ActivenessResolver.Combine | Editor/Processors/TraceAndOptimize/FindUnusedObjectsProcessor.cs:71-121 | false exactly when the inherited or the own activeness is false; true exactly when both are true |
| ActivenessResolver.InactiveSpreadsDown | Editor/Processors/TraceAndOptimize/FindUnusedObjectsProcessor.cs:65-71 | below the avatar root, a never-active GameObject makes every component on it and below it never active |
| ActivenessResolver.InactiveSpreadsToTransform | Editor/Processors/TraceAndOptimize/FindUnusedObjectsProcessor.cs:67-71 | the same, for every Transform in the subtree |
| EntryPoints.CollectAllActiveAbleGameObjects | Editor/Processors/TraceAndOptimize/FindUnusedObjectsProcessor.cs:382-405 | yields each GameObject once; yields exactly those whose own flag is not constantly false and whose parent chain up to the avatar root is yielded |
| EntryPoints.WalkYield | Editor/Processors/TraceAndOptimize/FindUnusedObjectsProcessor.cs:393-399 | yielding the head and enqueuing its children keeps the walk's invariant |
| EntryPoints.WalkPrune | Editor/Processors/TraceAndOptimize/FindUnusedObjectsProcessor.cs:400-402 | dropping a constantly inactive head keeps the walk's invariant |
| EntryPoints.WalkReaches | Editor/Processors/TraceAndOptimize/FindUnusedObjectsProcessor.cs:387-399 | once the queue is empty, every active-able GameObject has been yielded |
| EntryPoints.ActiveAbleIsNotInactive | Editor/Processors/TraceAndOptimize/FindUnusedObjectsProcessor.cs:390-396 | a yielded GameObject is never resolved as inactive |
| EntryPoints.InactiveSelfPrunesSubtree | Editor/Processors/TraceAndOptimize/FindUnusedObjectsProcessor.cs:400-402 | a constantly inactive GameObject below the root and its whole subtree are never yielded |
| EntryPoints.ActiveAbleInSession | Editor/Processors/TraceAndOptimize/FindUnusedObjectsProcessor.cs:385-398 | every yielded GameObject lies under the avatar root and belongs to the session |
| Marking.GraphOf | Editor/Processors/TraceAndOptimize/FindUnusedObjectsProcessor.cs:158-167 | the entry points are the components that can be active and are flagged on an active-able GameObject or sit on an excluded one |
| Marking.MarkedIsJustified | Editor/Processors/TraceAndOptimize/FindUnusedObjectsProcessor.cs:169-184 | every kept component is an entry point or the target of a firing edge from another kept component |
| Marking.InactiveKeptOnlyByEvenIfTargetIsDisabled | Editor/Processors/TraceAndOptimize/FindUnusedObjectsProcessor.cs:130-131 | a kept component that is never active was reached, from another kept component, by an edge flagged EvenIfTargetIsDisabled |
| Marking.LeastClosedUnique | Editor/Processors/TraceAndOptimize/FindUnusedObjectsProcessor.cs:169-184 | two least closed sets are equal, so the marked set MarkAndSweep ends with is fixed by the graph alone; the order in which entry points and edges are enqueued cannot change it |
| Marking.MarkedAreNodes | Editor/Processors/TraceAndOptimize/FindUnusedObjectsProcessor.cs:172-182 | only known components are ever kept |
| Marking.EntriesCanBeActive | Editor/Processors/TraceAndOptimize/FindUnusedObjectsProcessor.cs:130-131 | every entry point can be active |
| Worklist.FollowEdge | Editor/Processors/TraceAndOptimize/FindUnusedObjectsProcessor.cs:175-183 | following one edge keeps the propagation invariant, with the edge counted as followed |
| Worklist.Dequeue | Editor/Processors/TraceAndOptimize/FindUnusedObjectsProcessor.cs:171 | the dequeued component is new to the processed set and carries its true `canBeActive` flag |
| Worklist.MarkingDone | Editor/Processors/TraceAndOptimize/FindUnusedObjectsProcessor.cs:169-184 | with the queue empty, the marked set is the least closed set and each mask holds exactly the types that have a reason |
| Worklist.SeedStep | Editor/Processors/TraceAndOptimize/FindUnusedObjectsProcessor.cs:159-167 | marking an entry-point candidate marks it with Normal when it can be active, and skips it otherwise |
| Worklist.UnmarkedHasNoReason | Editor/Processors/TraceAndOptimize/FindUnusedObjectsProcessor.cs:133-141 | a component that is not marked has no reason to be |
| Sessions.DestroyedSpreads | Editor/Processors/TraceAndOptimize/FindUnusedObjectsProcessor.cs:195 | destroying a GameObject destroys everything below it |
| Sessions.LiveChild | Editor/Processors/TraceAndOptimize/FindUnusedObjectsProcessor.cs:304 | below a live GameObject, a child is live exactly when it was not destroyed itself |
| Sessions.Session.DestroyGameObject | Editor/Processors/TraceAndOptimize/FindUnusedObjectsProcessor.cs:195 | the GameObject joins the destroyed ones; nothing else changes |
| Sessions.Session.DestroyComponent | Editor/Processors/TraceAndOptimize/FindUnusedObjectsProcessor.cs:200 | the component joins the destroyed ones; nothing else changes |
| Sessions.Session.AddMergeBone | Editor/Processors/TraceAndOptimize/FindUnusedObjectsProcessor.cs:344 | the GameObject gains a MergeBone; nothing else changes |
| MergeBoneConfig.TransformAnimated | Editor/Processors/TraceAndOptimize/FindUnusedObjectsProcessor.cs:349-361 | true exactly when one of the thirteen local-pose properties is modified |
| MergeBoneConfig.OtherPropertiesIgnored | Editor/Processors/TraceAndOptimize/FindUnusedObjectsProcessor.cs:374-380 | modifying any property outside the local pose never changes whether a Transform counts as animated |
| MergeBoneConfig.NotAnimatedUsesActiveSelf | Editor/Processors/TraceAndOptimize/FindUnusedObjectsProcessor.cs:363-370 | a GameObject whose `m_IsActive` is not animated resolves to its own `activeSelf` |
| MergeBoneConfig.CountLive | Editor/Processors/TraceAndOptimize/FindUnusedObjectsProcessor.cs:315 | the live components are at most all of them, and are all of them exactly when none was destroyed |
| MergeBoneConfig.CountLiveCountsLive | Editor/Processors/TraceAndOptimize/FindUnusedObjectsProcessor.cs:315 | on a GameObject's component list, which has no repeats, CountLive is the number of distinct live components, the length `GetComponents` returns |
| MergeBoneConfig.MergeNeedsAllowedUsages | Editor/Processors/TraceAndOptimize/FindUnusedObjectsProcessor.cs:313-319 | a bone without a MergeBone merges only when its Transform is its only component, its usages are allowed ones and its pose is not animated |
| MergeBoneConfig.MergedChildrenIgnorePose | Editor/Processors/TraceAndOptimize/FindUnusedObjectsProcessor.cs:321-341 | when all live children merge, the bone's own pose, scale and activeness animation do not affect the decision |
| MergeBoneConfig.AnyChildTransformAnimated | Editor/Processors/TraceAndOptimize/FindUnusedObjectsProcessor.cs:331-332 | true exactly when some live child has an animated local pose |
| MergeBoneConfig.MergeAllowed | Editor/Processors/TraceAndOptimize/FindUnusedObjectsProcessor.cs:307-341 | the decision ladder returns the merge decision on the bone's facts |
| MergeBoneConfig.ConfigureChild | Editor/Processors/TraceAndOptimize/FindUnusedObjectsProcessor.cs:304-305 | handling one child adds exactly the merged live transforms of its subtree and updates whether all live children so far merged |
| MergeBoneConfig.ConfigureChildren | Editor/Processors/TraceAndOptimize/FindUnusedObjectsProcessor.cs:303-305 | reports whether every live child merged; adds exactly the merged live transforms below the children |
| MergeBoneConfig.AddMergeBoneIf | Editor/Processors/TraceAndOptimize/FindUnusedObjectsProcessor.cs:343-344 | a merged bone without a MergeBone gains one; otherwise nothing changes |
| MergeBoneConfig.ConfigureRecursive | Editor/Processors/TraceAndOptimize/FindUnusedObjectsProcessor.cs:301-347 | returns CanMerge; afterwards a transform carries MergeBone exactly when it did before or it is a merged live transform of the subtree |
| MergeBoneConfig.AddedIsMergedBelow | Editor/Processors/TraceAndOptimize/FindUnusedObjectsProcessor.cs:301-347 | the merged live transforms of a subtree are its root when it merges plus those below its live children |
| MergeBoneConfig.SubtreeConfigured | Editor/Processors/TraceAndOptimize/FindUnusedObjectsProcessor.cs:343-346 | adding the bone when it merges completes the subtree's configuration |
| GcData.ActiveNessOf | Editor/Processors/TraceAndOptimize/FindUnusedObjectsProcessor.cs:218-229 | False, True and Variable stand for false, true and unknown activeness, one to one |
| GcData.RecordDependencies | Editor/Processors/TraceAndOptimize/FindUnusedObjectsProcessor.cs:231-233 | one record per outgoing edge, in order, each carrying the edge's target, flags and types |
| GcData.IncomingFromExact | Editor/Processors/TraceAndOptimize/FindUnusedObjectsProcessor.cs:248-250 | the incoming records from one component are exactly its edges into the target |
| GcData.DependantsAreReversedEdges | Editor/Processors/TraceAndOptimize/FindUnusedObjectsProcessor.cs:245-251 | the dependants of a component are exactly the reversed edges into it from the session's components |
| GcData.SetEntrypoints | Editor/Processors/TraceAndOptimize/FindUnusedObjectsProcessor.cs:237-239 | the wanted components get the flag and nothing else changes; the lookup fails exactly when a wanted component has no record |
| GcData.SetEntrypointsAll | Editor/Processors/TraceAndOptimize/FindUnusedObjectsProcessor.cs:236-243 | the same over the components of several GameObjects |
| GcData.AddIncoming | Editor/Processors/TraceAndOptimize/FindUnusedObjectsProcessor.cs:248-250 | each record gains, in order, the edges of one component into it |
| GcData.AddDependants | Editor/Processors/TraceAndOptimize/FindUnusedObjectsProcessor.cs:245-251 | each record's dependants become exactly the reversed edges into it |
| Processor.SeedsCovered | Editor/Processors/TraceAndOptimize/FindUnusedObjectsProcessor.cs:158-167 | after the two seeding loops every entry point is marked |
| Processor.SweepOutcome | Editor/Processors/TraceAndOptimize/FindUnusedObjectsProcessor.cs:186-202 | after the sweep, a component of the session is gone exactly when it, or the GameObject of one of its ancestors, is unmarked |
| Processor.SweptContextValid | Editor/Processors/TraceAndOptimize/FindUnusedObjectsProcessor.cs:317 | after the sweep every live Transform under the root has a mask, so the lookup cannot fail |
| Processor.EntryIsGcEntryThatCanBeActive | Editor/Processors/TraceAndOptimize/FindUnusedObjectsProcessor.cs:236-243 | an entry point of the mark phase is exactly a debug-pass entry point that can be active |
| Processor.OnFirstIsOwnGameObject | Editor/Processors/TraceAndOptimize/FindUnusedObjectsProcessor.cs:242 | a component is among the components of some listed GameObjects exactly when its own GameObject is listed |
| Processor.ActiveAbleComponentsInSession | Editor/Processors/TraceAndOptimize/FindUnusedObjectsProcessor.cs:236-239 | every component of an active-able GameObject belongs to the session |
| Processor.FlagActiveAbleEntrypoints | Editor/Processors/TraceAndOptimize/FindUnusedObjectsProcessor.cs:236-239 | flags exactly the collector's entry points on active-able GameObjects and keeps every other field |
| Processor.FlagExcludedEntrypoints | Editor/Processors/TraceAndOptimize/FindUnusedObjectsProcessor.cs:241-243 | flags every component of an excluded GameObject; fails exactly when one of them is outside the session |
| Processor.SetGcEntrypoints | Editor/Processors/TraceAndOptimize/FindUnusedObjectsProcessor.cs:236-243 | each record's flag becomes its old flag or GcEntry; fails exactly when an excluded component is outside the session |
| Processor.GcDataOfPasses | Editor/Processors/TraceAndOptimize/FindUnusedObjectsProcessor.cs:211-251 | records that went through the three passes are the components' GcRecords |
| Processor.CompleteGcData | Editor/Processors/TraceAndOptimize/FindUnusedObjectsProcessor.cs:236-251 | the entry-point and dependants passes turn the base records into the GcRecords, or fail as the dictionary lookup does |
| Processor.FindUnusedObjectsProcessor.constructor | Editor/Processors/TraceAndOptimize/FindUnusedObjectsProcessor.cs:22-52 | stores the inputs; the masks, queue and cache start empty |
| Processor.FindUnusedObjectsProcessor.GetActiveness | Editor/Processors/TraceAndOptimize/FindUnusedObjectsProcessor.cs:54-61 | returns the resolved activeness; the component is cached afterwards; no cached entry is dropped or changed, so each component is computed at most once; cached values stay correct |
| Processor.FindUnusedObjectsProcessor.ComputeActiveness | Editor/Processors/TraceAndOptimize/FindUnusedObjectsProcessor.cs:63-122 | returns the resolved activeness (the root is always active); keeps every cached entry and the cache correct |
| Processor.FindUnusedObjectsProcessor.MarkComponent | Editor/Processors/TraceAndOptimize/FindUnusedObjectsProcessor.cs:124-142 | the masks and queue become MarkOutcome: skip a never-active target when checked, widen an existing mask, or mark and queue a new one |
| Processor.FindUnusedObjectsProcessor.MarkSeed | Editor/Processors/TraceAndOptimize/FindUnusedObjectsProcessor.cs:161-162 | a candidate that can be active is marked; the seeding state is kept |
| Processor.FindUnusedObjectsProcessor.MarkComponentsOf | Editor/Processors/TraceAndOptimize/FindUnusedObjectsProcessor.cs:160-162 | every wanted component of the GameObject that can be active is marked |
| Processor.FindUnusedObjectsProcessor.MarkComponentsOfAll | Editor/Processors/TraceAndOptimize/FindUnusedObjectsProcessor.cs:159-167 | the same for each GameObject of the list |
| Processor.FindUnusedObjectsProcessor.MarkActiveAbleEntryPoints | Editor/Processors/TraceAndOptimize/FindUnusedObjectsProcessor.cs:158-162 | marks the flagged components of every active-able GameObject |
| Processor.FindUnusedObjectsProcessor.MarkExcludedEntryPoints | Editor/Processors/TraceAndOptimize/FindUnusedObjectsProcessor.cs:164-167 | marks every component of every excluded GameObject that can be active |
| Processor.FindUnusedObjectsProcessor.MarkEntryPoints | Editor/Processors/TraceAndOptimize/FindUnusedObjectsProcessor.cs:158-167 | afterwards every entry point is marked, and nothing but entry points |
| Processor.FindUnusedObjectsProcessor.PopPending | Editor/Processors/TraceAndOptimize/FindUnusedObjectsProcessor.cs:171 | removes the head of the queue and returns it; it is new to the processed set and carries its true `canBeActive` flag |
| Processor.FindUnusedObjectsProcessor.ProcessDependencies | Editor/Processors/TraceAndOptimize/FindUnusedObjectsProcessor.cs:172-183 | following every edge of the dequeued component keeps the propagation invariant |
| Processor.FindUnusedObjectsProcessor.ProcessNext | Editor/Processors/TraceAndOptimize/FindUnusedObjectsProcessor.cs:171-183 | one turn keeps the invariant and processes one more component |
| Processor.FindUnusedObjectsProcessor.Propagate | Editor/Processors/TraceAndOptimize/FindUnusedObjectsProcessor.cs:169-184 | empties the queue with the invariant kept and every edge of the processed components followed |
| Processor.FindUnusedObjectsProcessor.Sweep | Editor/Processors/TraceAndOptimize/FindUnusedObjectsProcessor.cs:186-202 | destroys only unmarked objects, and afterwards every unmarked component of the session is gone |
| Processor.FindUnusedObjectsProcessor.MarkAndSweep | Editor/Processors/TraceAndOptimize/FindUnusedObjectsProcessor.cs:150-203 | the marked set is the least closed set; each mask holds exactly its reasons; a component of the session is gone exactly when it or an ancestor's GameObject is unmarked |
| Processor.FindUnusedObjectsProcessor.ConfigureMergeBone | Editor/Processors/TraceAndOptimize/FindUnusedObjectsProcessor.cs:296-298 | the session gains MergeBone exactly on the merged live Transforms under the avatar root |
| Processor.FindUnusedObjectsProcessor.ProcessNew | Editor/Processors/TraceAndOptimize/FindUnusedObjectsProcessor.cs:144-148 | the outcome of MarkAndSweep, then MergeBone exactly on the merged live Transforms unless switched off |
| Processor.FindUnusedObjectsProcessor.ComponentRecord | Editor/Processors/TraceAndOptimize/FindUnusedObjectsProcessor.cs:215-233 | the first-pass record of one component: its stored activeness and its outgoing edges |
| Processor.FindUnusedObjectsProcessor.BuildComponentData | Editor/Processors/TraceAndOptimize/FindUnusedObjectsProcessor.cs:211-234 | one first-pass record for each component of the session and no other |
| Processor.FindUnusedObjectsProcessor.CollectDataForGc | Editor/Processors/TraceAndOptimize/FindUnusedObjectsProcessor.cs:205-251 | each component of the session gets its GcRecord; fails exactly when an excluded GameObject has a component outside the session |
| AutoFreezeMeaninglessBlendShape.MeaningfulBlendShapes | Editor/Processors/SkinnedMeshes/InternalAutoFreezeMeaninglessBlendShapeProcessor.cs:17-20 | the union of the vertices' blend-shape keys |
| AutoFreezeMeaninglessBlendShape.KeysOfVerticesMeans | Editor/Processors/SkinnedMeshes/InternalAutoFreezeMeaninglessBlendShapeProcessor.cs:17-20 | a name is meaningful exactly when some vertex carries it |
| AutoFreezeMeaninglessBlendShape.MeaninglessBlendShapes | Editor/Processors/SkinnedMeshes/InternalAutoFreezeMeaninglessBlendShapeProcessor.cs:24 | the names of the mesh's blend shapes that are not meaningful |
| AutoFreezeMeaninglessBlendShape.NamesNotInMeans | Editor/Processors/SkinnedMeshes/InternalAutoFreezeMeaninglessBlendShapeProcessor.cs:24 | a name is collected exactly when some blend shape has it and it is not meaningful |
| AutoFreezeMeaninglessBlendShape.Process | Editor/Processors/SkinnedMeshes/InternalAutoFreezeMeaninglessBlendShapeProcessor.cs:15-26 | the freeze set becomes the old set plus the meaningless blend shapes; the mesh is only read |
| AutoFreezeMeaninglessBlendShape.FrozenAfterMeans | Editor/Processors/SkinnedMeshes/InternalAutoFreezeMeaninglessBlendShapeProcessor.cs:17-25 | a name is frozen afterwards exactly when it was before, or it names a blend shape of the mesh that no vertex carries |
| AutoFreezeMeaninglessBlendShape.FrozenAfterKeeps | Editor/Processors/SkinnedMeshes/InternalAutoFreezeMeaninglessBlendShapeProcessor.cs:23-25 | nothing already frozen is unfrozen |
| AutoFreezeMeaninglessBlendShape.MeaningfulNotAdded | Editor/Processors/SkinnedMeshes/InternalAutoFreezeMeaninglessBlendShapeProcessor.cs:19-24 | a name some vertex carries is frozen afterwards only if it was frozen before |
| AutoFreezeMeaninglessBlendShape.AddedNamesFromMesh | Editor/Processors/SkinnedMeshes/InternalAutoFreezeMeaninglessBlendShapeProcessor.cs:24 | every added name is the name of one of the mesh's blend shapes |
| AutoFreezeMeaninglessBlendShape.FrozenAfterIdempotent | Editor/Processors/SkinnedMeshes/InternalAutoFreezeMeaninglessBlendShapeProcessor.cs:24-25 | running the step twice on the same mesh freezes nothing more |
| AutoFreezeMeaninglessBlendShape.GetComputer | Editor/Processors/SkinnedMeshes/InternalAutoFreezeMeaninglessBlendShapeProcessor.cs:29 | the step passes the upstream mesh-info computer through unchanged |

## Left out

- `Process()` dispatch on `useLegacyGC` and `gcDebug`: a flag switch between three entry points. The entry points it selects are modelled separately: `ProcessNew` and `CollectDataForGc`.
- `ProcessLegacy`: the older mark-and-sweep that is switched off by default. It is not part of this model.
- ComponentDependencyCollector: its construction and `CollectAllUsages` are not part of this model. Its result is an input, the `collector` field, so `preserveEndBone`, which only configures it, does not appear.
- ImmutableModificationsContainer: its construction is not part of this model. The overlay is an input map from objects to their modified properties.
- `GetConstantValue`: the overlay's own implementation is not part of this model. The model takes it that:
  - an unmodified property has its current value;
  - a property modified to one constant has that constant;
  - anything else is unknown.
- Processor.FindUnusedObjectsProcessor.MarkAndSweep: requires that nothing has been destroyed yet, which is how the pipeline calls it. The sweep's outcome is stated for that starting state only.
- Processor.FindUnusedObjectsProcessor.ProcessNew: requires empty destroyed sets and an empty cache, for the same reason.
- EntryPoints.CollectAllActiveAbleGameObjects: the lazy `yield return` is computed eagerly into a sequence. The callers consume the whole enumeration before anything else changes, so the order and contents are the same.
- Processor.FindUnusedObjectsProcessor.ConfigureMergeBone: when the sweep has destroyed the avatar root's GameObject, this model configures nothing. The C# code would dereference a destroyed object there.
- MergeBoneConfig.MergeAllowed: the float tests on the local pose are taken as two booleans per Transform:
  - `identity` for the identity-transform comparison;
  - `scaledEvenly` for `MergeBoneProcessor.ScaledEvenly`.
  `MergeBoneProcessor` is not part of this model.
- MergeBone's `avoidNameConflict` setting, and MergeBone as a component, are not modelled. The session records which GameObjects carry a MergeBone as a set.
- Processor.FindUnusedObjectsProcessor.CollectDataForGc: the `KeyNotFoundException` of the dictionary indexer is modelled as a `None` result. The final attachment of the records to each GameObject through `GetOrAddComponent<GCData>` (lines 254-255) is left out, and so is serialisation. The result is the map of records the attachment would store.
- Unity object lifetime: `Object.DestroyImmediate` is modelled as adding to the session's destroyed sets, and `!component` as membership in them. Null entries of the session's component list are not modelled.
- The editor UI files (`Editor/MergeSkinnedMeshWindow.cs`, `Internal/ErrorReporter/Editor/ErrorElement.cs`) are not part of this model.
- AutoFreezeMeaninglessBlendShape.Process: receives the FreezeBlendShape component as a parameter instead of looking it up with `GetComponent`. The prefab-aware `GetAsSet`/`SetValueNonPrefab` pair is modelled as reading and writing a plain set field.
- MeshInfo2: its internals are not part of this model. A vertex is reduced to the names of its blend-shape deltas, and a blend shape to its name.
- AutoFreezeMeaninglessBlendShape.GetComputer: the mesh-info computer chain is not part of this model. The computer is an opaque value that the step passes through.
