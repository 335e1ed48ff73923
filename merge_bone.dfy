/**
 * Automatic MergeBone configuration: after the sweep, every live Transform
 * below the avatar root that carries nothing but itself, is used only as a
 * bone, parent or transform reference, and whose local pose is not animated,
 * is given a MergeBone component, children first.
 */
module MergeBoneConfig {
  import opened Wrappers
  import opened SceneModel
  import opened Modifications
  import opened Dependencies
  import opened ActivenessResolver
  import opened Sessions

  /** The Transform properties whose animation forbids merging. */
  const TransformProperties: seq<string> := [
    "m_LocalRotation.x", "m_LocalRotation.y", "m_LocalRotation.z", "m_LocalRotation.w",
    "m_LocalPosition.x", "m_LocalPosition.y", "m_LocalPosition.z",
    "m_LocalScale.x", "m_LocalScale.y", "m_LocalScale.z",
    "localEulerAnglesRaw.x", "localEulerAnglesRaw.y", "localEulerAnglesRaw.z"
  ]

  /** The usages that do not keep a bone from being merged. */
  const AllowedUsages: set<DependencyType> := {Bone, Parent, ComponentToTransform}

  /** Some local-pose property of the Transform component of `t` is animated or overridden. */
  predicate IsTransformAnimated(mods: ModificationsContainer, t: Comp) {
    exists i :: 0 <= i < |TransformProperties| && TransformProperties[i] in GetModifiedProperties(mods, ComponentOf(t))
  }

  /** TransformAnimated: scans the thirteen local-pose properties for one that is modified. */
  method TransformAnimated(mods: ModificationsContainer, t: Comp) returns (r: bool)
    ensures r == IsTransformAnimated(mods, t)
  {
    var transformProperties := GetModifiedProperties(mods, ComponentOf(t));
    if |transformProperties| != 0 {
      var i := 0;
      while i < |TransformProperties|
        invariant 0 <= i <= |TransformProperties|
        invariant forall k :: 0 <= k < i ==> TransformProperties[k] !in transformProperties
      {
        if TransformProperties[i] in transformProperties {
          return true;
        }
        i := i + 1;
      }
    }
    return false;
  }

  /** Properties other than the local pose never make a Transform count as animated. */
  lemma {:induction false} OtherPropertiesIgnored(mods: ModificationsContainer, t: Comp, p: string, st: PropertyState)
    requires p !in TransformProperties
    ensures var mods' := mods[ComponentOf(t) := GetModifiedProperties(mods, ComponentOf(t))[p := st]];
            IsTransformAnimated(mods', t) == IsTransformAnimated(mods, t)
  {
    var mods' := mods[ComponentOf(t) := GetModifiedProperties(mods, ComponentOf(t))[p := st]];
    forall i | 0 <= i < |TransformProperties|
      ensures TransformProperties[i] in GetModifiedProperties(mods', ComponentOf(t))
          <==> TransformProperties[i] in GetModifiedProperties(mods, ComponentOf(t))
    {
      assert TransformProperties[i] != p;
    }
  }

  /** GameObjectAnimated: the GameObject's `m_IsActive` is animated or overridden. */
  predicate GameObjectAnimated(mods: ModificationsContainer, t: Comp) {
    "m_IsActive" in GetModifiedProperties(mods, GameObjectOf(t))
  }

  /** A GameObject whose `m_IsActive` is not animated is resolved from its own `activeSelf`. */
  lemma NotAnimatedUsesActiveSelf(sc: Scene, mods: ModificationsContainer, t: Comp)
    requires t in sc.components && !GameObjectAnimated(mods, t)
    ensures ActiveSelf(sc, mods, t) == Some(sc.components[t].enabled)
  {
  }

  /** How many of the components in `s` are not in `C`. */
  function CountLive(s: seq<Comp>, C: set<Comp>): (n: nat)
    ensures n <= |s|
    ensures n == |s| <==> forall i :: 0 <= i < |s| ==> s[i] !in C
  {
    if s == [] then 0
    else CountLive(s[..|s| - 1], C) + (if s[|s| - 1] in C then 0 else 1)
  }

  /** The components in `s` that are not in `C`. */
  ghost function LiveSet(s: seq<Comp>, C: set<Comp>): set<Comp> {
    set x | x in s && x !in C
  }

  /** Appending a component not yet listed adds it to the live ones exactly when it is live. */
  lemma LiveSetSnoc(init: seq<Comp>, last: Comp, C: set<Comp>)
    requires Distinct(init + [last])
    ensures Distinct(init) && last !in init
    ensures LiveSet(init + [last], C) == LiveSet(init, C) + (if last in C then {} else {last})
  {
    var s := init + [last];
    forall i, j | 0 <= i < j < |init| ensures init[i] != init[j] {
      assert s[i] == init[i] && s[j] == init[j];
    }
    forall i | 0 <= i < |init| ensures init[i] != last {
      assert s[i] == init[i] && s[|init|] == last;
    }
  }

  /** On a list without repeats, CountLive is the number of live components: what GetComponents returns. */
  lemma {:induction false} CountLiveCountsLive(s: seq<Comp>, C: set<Comp>)
    requires Distinct(s)
    ensures CountLive(s, C) == |LiveSet(s, C)|
    decreases |s|
  {
    if s != [] {
      var init, last := s[..|s| - 1], s[|s| - 1];
      assert s == init + [last];
      LiveSetSnoc(init, last, C);
      CountLiveCountsLive(init, C);
    }
  }

  /** What ConfigureRecursive reads: the scene, overlay and keep-reason masks, the destroyed objects, and the MergeBone GameObjects at the start. */
  datatype MergeContext = MergeContext(
    scene: Scene,
    mods: ModificationsContainer,
    marked: map<Comp, set<DependencyType>>,
    destroyedGameObjects: set<Comp>,
    destroyedComponents: set<Comp>,
    mergeBones: set<Comp>)

  /** Every live Transform under the avatar root has a keep-reason mask: the sweep destroyed the unmarked ones. */
  ghost predicate ContextValid(ctx: MergeContext) {
    && WellFormed(ctx.scene)
    && forall s ::
         (s in ctx.scene.transforms && IsAncestorOrSelf(ctx.scene, ctx.scene.root, s)
          && !Destroyed(ctx.scene, ctx.destroyedGameObjects, s)) ==> s in ctx.marked
  }

  /** A live Transform under the avatar root. */
  ghost predicate LiveUnderRoot(ctx: MergeContext, t: Comp)
    requires WellFormed(ctx.scene)
  {
    && t in ctx.scene.transforms
    && IsAncestorOrSelf(ctx.scene, ctx.scene.root, t)
    && !Destroyed(ctx.scene, ctx.destroyedGameObjects, t)
  }

  lemma ChildFacts(ctx: MergeContext, t: Comp, ch: Comp)
    requires ContextValid(ctx) && LiveUnderRoot(ctx, t) && ch in Children(ctx.scene, t)
    requires ch !in ctx.destroyedGameObjects
    ensures LiveUnderRoot(ctx, ch)
    ensures Deeper(ctx.scene, ctx.scene.transforms[ch].depth) < Deeper(ctx.scene, ctx.scene.transforms[t].depth)
  {
    ChildIsDeeper(ctx.scene, t, ch);
    LiveChild(ctx.scene, ctx.destroyedGameObjects, t, ch);
    ChildBelow(ctx.scene, ctx.scene.root, t, ch);
  }

  lemma ChildBelow(sc: Scene, a: Comp, t: Comp, ch: Comp)
    requires WellFormed(sc) && t in sc.transforms && ch in Children(sc, t) && ch in sc.transforms
    requires IsAncestorOrSelf(sc, a, t)
    ensures IsAncestorOrSelf(sc, a, ch)
  {
    assert ParentOf(sc, ch) == Some(t);
  }

  /** Some live child of `t` has an animated local pose. */
  ghost predicate ChildTransformAnimated(ctx: MergeContext, t: Comp)
    requires WellFormed(ctx.scene) && t in ctx.scene.transforms
  {
    exists ch :: ch in Children(ctx.scene, t) && ch !in ctx.destroyedGameObjects && IsTransformAnimated(ctx.mods, ch)
  }

  /** `ch` is a live child of `t` that ends up merged. */
  ghost predicate ChildMerged(ctx: MergeContext, t: Comp, ch: Comp)
    requires ContextValid(ctx) && LiveUnderRoot(ctx, t)
    decreases Deeper(ctx.scene, ctx.scene.transforms[t].depth), 0
  {
    && ch in Children(ctx.scene, t)
    && ch !in ctx.destroyedGameObjects
    && (ChildFacts(ctx, t, ch); CanMerge(ctx, ch))
  }

  /** What the merge decision looks at for one bone. */
  datatype BoneFacts = BoneFacts(
    alreadyMerged: bool,
    componentCount: nat,
    usages: set<DependencyType>,
    transformAnimated: bool,
    mergedChildren: bool,
    gameObjectAnimated: bool,
    identity: bool,
    childrenTransformAnimated: bool,
    scaledEvenly: bool)

  /**
   * The merge decision for one bone: it already has a MergeBone, or it
   * carries no other component, is used only as a bone, parent or transform
   * reference, its local pose is not animated, and, when some live child is
   * not merged, its activeness is not animated and it is either the identity
   * transform or evenly scaled with no animated child.
   */
  predicate MergeDecision(f: BoneFacts) {
    if f.alreadyMerged then true
    else if f.componentCount != 1 then false
    else if f.usages - AllowedUsages != {} then false
    else if f.transformAnimated then false
    else if !f.mergedChildren && f.gameObjectAnimated then false
    else if !f.mergedChildren && !f.identity && (f.childrenTransformAnimated || !f.scaledEvenly) then false
    else true
  }

  /** A bone without a MergeBone merges only when it is the lone component, used only in allowed ways, and not animated. */
  lemma MergeNeedsAllowedUsages(f: BoneFacts)
    requires MergeDecision(f) && !f.alreadyMerged
    ensures f.componentCount == 1 && f.usages <= AllowedUsages && !f.transformAnimated
  {
  }

  /** When every live child merges, the pose and activeness of the bone itself no longer matter. */
  lemma MergedChildrenIgnorePose(f: BoneFacts, identity: bool, scaledEvenly: bool, gameObjectAnimated: bool, childrenAnimated: bool)
    requires f.mergedChildren
    ensures MergeDecision(f) == MergeDecision(f.(identity := identity, scaledEvenly := scaledEvenly,
                                                 gameObjectAnimated := gameObjectAnimated,
                                                 childrenTransformAnimated := childrenAnimated))
  {
  }

  /** The facts about a live bone `t`, given whether all its live children merge. */
  ghost function FactsOf(ctx: MergeContext, t: Comp, mergedChildren: bool): BoneFacts
    requires WellFormed(ctx.scene) && t in ctx.scene.transforms && t in ctx.marked
  {
    BoneFacts(
      t in ctx.mergeBones,
      CountLive(Attached(ctx.scene, t), ctx.destroyedComponents),
      ctx.marked[t],
      IsTransformAnimated(ctx.mods, t),
      mergedChildren,
      GameObjectAnimated(ctx.mods, t),
      ctx.scene.transforms[t].identity,
      ChildTransformAnimated(ctx, t),
      ctx.scene.transforms[t].scaledEvenly)
  }

  /** Whether ConfigureRecursive returns true for `t`: the merge decision on its facts, with its live children decided first. */
  ghost predicate CanMerge(ctx: MergeContext, t: Comp)
    requires ContextValid(ctx) && LiveUnderRoot(ctx, t)
    decreases Deeper(ctx.scene, ctx.scene.transforms[t].depth), 1
  {
    var mergedChildren :=
      forall ch :: ch in Children(ctx.scene, t) && ch !in ctx.destroyedGameObjects ==> ChildMerged(ctx, t, ch);
    MergeDecision(FactsOf(ctx, t, mergedChildren))
  }

  /** `s` is a live Transform in the subtree of `t`. */
  ghost predicate InLiveSubtree(ctx: MergeContext, t: Comp, s: Comp)
    requires WellFormed(ctx.scene) && t in ctx.scene.transforms
  {
    && LiveUnderRoot(ctx, s)
    && IsAncestorOrSelf(ctx.scene, t, s)
  }

  /** `s` is a live Transform in the subtree of `t` that ends up merged. */
  ghost predicate MergedBelow(ctx: MergeContext, t: Comp, s: Comp)
    requires ContextValid(ctx) && t in ctx.scene.transforms
  {
    InLiveSubtree(ctx, t, s) && CanMerge(ctx, s)
  }

  /** The subtree of a live `t` is `t` and the subtrees of its live children. */
  lemma {:induction false} LiveSubtreeSplit(ctx: MergeContext, t: Comp, s: Comp) returns (ch: Comp)
    requires WellFormed(ctx.scene) && t in ctx.scene.transforms && InLiveSubtree(ctx, t, s) && s != t
    ensures ch in Children(ctx.scene, t) && ch !in ctx.destroyedGameObjects
    ensures ch in ctx.scene.transforms && InLiveSubtree(ctx, ch, s)
  {
    var sc := ctx.scene;
    ch := ChildOnPath(sc, t, s);
    if ch in ctx.destroyedGameObjects {
      DestroyedBelow(sc, ctx.destroyedGameObjects, ch, s);
    }
  }

  lemma LiveSubtreeOfChild(ctx: MergeContext, t: Comp, ch: Comp, s: Comp)
    requires WellFormed(ctx.scene) && t in ctx.scene.transforms && ch in Children(ctx.scene, t)
    requires ch in ctx.scene.transforms && InLiveSubtree(ctx, ch, s)
    ensures InLiveSubtree(ctx, t, s)
  {
    assert ParentOf(ctx.scene, ch) == Some(t);
    AncestorTransitive(ctx.scene, t, ch, s);
  }

  /** The MergeBone GameObjects agree with the start state over the subtree of `t`. */
  ghost predicate Untouched(sc: Scene, mergeBones: set<Comp>, start: set<Comp>, t: Comp)
    requires WellFormed(sc)
  {
    forall s :: s in sc.transforms && IsAncestorOrSelf(sc, t, s) ==> (s in mergeBones <==> s in start)
  }

  /** What the children loop has added so far: the merged transforms below the first `i` live children. */
  ghost predicate AddedBelow(ctx: MergeContext, t: Comp, children: seq<Comp>, i: int, s: Comp)
    requires ContextValid(ctx)
  {
    exists k :: 0 <= k < i && k < |children| && children[k] in ctx.scene.transforms
                && children[k] !in ctx.destroyedGameObjects && MergedBelow(ctx, children[k], s)
  }

  lemma ChildrenAreTransforms(ctx: MergeContext, t: Comp)
    requires WellFormed(ctx.scene) && t in ctx.scene.transforms
    ensures forall ch :: ch in Children(ctx.scene, t) ==> ch in ctx.scene.transforms
  {
  }

  /** Every live child among the first `i` children of `t` is merged. */
  ghost predicate MergedPrefix(ctx: MergeContext, t: Comp, i: int)
    requires ContextValid(ctx) && LiveUnderRoot(ctx, t) && 0 <= i <= |Children(ctx.scene, t)|
  {
    var children := Children(ctx.scene, t);
    forall k :: 0 <= k < i && children[k] !in ctx.destroyedGameObjects ==> ChildMerged(ctx, t, children[k])
  }

  lemma MergedPrefixStep(ctx: MergeContext, t: Comp, i: int)
    requires ContextValid(ctx) && LiveUnderRoot(ctx, t) && 0 <= i < |Children(ctx.scene, t)|
    ensures Children(ctx.scene, t)[i] !in ctx.destroyedGameObjects ==>
              LiveUnderRoot(ctx, Children(ctx.scene, t)[i]) &&
              MergedPrefix(ctx, t, i + 1) == (MergedPrefix(ctx, t, i) && CanMerge(ctx, Children(ctx.scene, t)[i]))
    ensures Children(ctx.scene, t)[i] in ctx.destroyedGameObjects ==>
              MergedPrefix(ctx, t, i + 1) == MergedPrefix(ctx, t, i)
  {
    var children := Children(ctx.scene, t);
    if children[i] !in ctx.destroyedGameObjects {
      ChildFacts(ctx, t, children[i]);
      assert ChildMerged(ctx, t, children[i]) == CanMerge(ctx, children[i]);
    }
  }

  /** After the children loop, CanMerge is the merge decision on the loop's result. */
  lemma CanMergeFacts(ctx: MergeContext, t: Comp)
    requires ContextValid(ctx) && LiveUnderRoot(ctx, t)
    ensures CanMerge(ctx, t) == MergeDecision(FactsOf(ctx, t, MergedPrefix(ctx, t, |Children(ctx.scene, t)|)))
  {
    var children := Children(ctx.scene, t);
    if MergedPrefix(ctx, t, |children|) {
      forall ch | ch in children && ch !in ctx.destroyedGameObjects ensures ChildMerged(ctx, t, ch) {
        var k :| 0 <= k < |children| && children[k] == ch;
      }
    }
  }

  /** After the children loop: `t` is untouched and every other transform is added exactly when merged below `t`. */
  lemma ChildrenConfigured(ctx: MergeContext, t: Comp, start: set<Comp>, now: set<Comp>)
    requires ContextValid(ctx) && LiveUnderRoot(ctx, t)
    requires Untouched(ctx.scene, start, ctx.mergeBones, t)
    requires forall s :: s in now <==> s in start || AddedBelow(ctx, t, Children(ctx.scene, t), |Children(ctx.scene, t)|, s)
    ensures t in now <==> t in ctx.mergeBones
    ensures t in start <==> t in ctx.mergeBones
    ensures MergedBelow(ctx, t, t) == CanMerge(ctx, t)
    ensures forall s :: s != t ==> (s in now <==> s in start || MergedBelow(ctx, t, s))
  {
    ChildrenAreTransforms(ctx, t);
    SelfUntouched(ctx, t, start, now);
    forall s ensures MergedBelow(ctx, t, s) <==>
                       (s == t && CanMerge(ctx, t)) || AddedBelow(ctx, t, Children(ctx.scene, t), |Children(ctx.scene, t)|, s) {
      AddedIsMergedBelow(ctx, t, s);
    }
  }

  /** Handling the i-th child adds the merged transforms of its subtree when it is live, and nothing otherwise. */
  lemma AddedBelowStep(ctx: MergeContext, t: Comp, i: int, live: bool, start: set<Comp>, before: set<Comp>, after: set<Comp>)
    requires ContextValid(ctx) && LiveUnderRoot(ctx, t) && 0 <= i < |Children(ctx.scene, t)|
    requires forall ch :: ch in Children(ctx.scene, t) ==> ch in ctx.scene.transforms
    requires forall s :: s in before <==> s in start || AddedBelow(ctx, t, Children(ctx.scene, t), i, s)
    requires live == (Children(ctx.scene, t)[i] !in ctx.destroyedGameObjects)
    requires !live ==> after == before
    requires live ==> forall s :: s in after <==> s in before || MergedBelow(ctx, Children(ctx.scene, t)[i], s)
    ensures forall s :: s in after <==> s in start || AddedBelow(ctx, t, Children(ctx.scene, t), i + 1, s)
  {
    var children := Children(ctx.scene, t);
    forall s ensures AddedBelow(ctx, t, children, i + 1, s) <==>
                       AddedBelow(ctx, t, children, i, s)
                       || (children[i] !in ctx.destroyedGameObjects && MergedBelow(ctx, children[i], s)) {
    }
  }

  /** Before handling the i-th child, its subtree is untouched: earlier children only added inside their own subtrees. */
  lemma NextChildUntouched(ctx: MergeContext, t: Comp, i: int, before: set<Comp>, now: set<Comp>)
    requires ContextValid(ctx) && LiveUnderRoot(ctx, t) && 0 <= i < |Children(ctx.scene, t)|
    requires Untouched(ctx.scene, before, ctx.mergeBones, t)
    requires forall ch :: ch in Children(ctx.scene, t) ==> ch in ctx.scene.transforms
    requires forall s :: s in now <==> s in before || AddedBelow(ctx, t, Children(ctx.scene, t), i, s)
    ensures Untouched(ctx.scene, now, ctx.mergeBones, Children(ctx.scene, t)[i])
  {
    var sc := ctx.scene;
    var children := Children(sc, t);
    var ch := children[i];
    assert ParentOf(sc, ch) == Some(t);
    forall s | s in sc.transforms && IsAncestorOrSelf(sc, ch, s) ensures s in now <==> s in ctx.mergeBones {
      AncestorTransitive(sc, t, ch, s);
      forall k | 0 <= k < i ensures !IsAncestorOrSelf(sc, children[k], s) {
        SiblingSubtreesDisjoint(sc, t, ch, children[k], s);
      }
    }
  }

  /** After the children loop, `t` itself is untouched. */
  lemma SelfUntouched(ctx: MergeContext, t: Comp, before: set<Comp>, now: set<Comp>)
    requires ContextValid(ctx) && LiveUnderRoot(ctx, t)
    requires Untouched(ctx.scene, before, ctx.mergeBones, t)
    requires forall ch :: ch in Children(ctx.scene, t) ==> ch in ctx.scene.transforms
    requires forall s :: s in now <==> s in before || AddedBelow(ctx, t, Children(ctx.scene, t), |Children(ctx.scene, t)|, s)
    ensures t in now <==> t in ctx.mergeBones
  {
    var children := Children(ctx.scene, t);
    forall k | 0 <= k < |children| ensures !IsAncestorOrSelf(ctx.scene, children[k], t) {
      NotBelowOwnChild(ctx.scene, t, children[k]);
    }
  }

  /** What ConfigureRecursive adds in total: `t` when it merges, and the merged transforms below its live children. */
  lemma {:induction false} AddedIsMergedBelow(ctx: MergeContext, t: Comp, s: Comp)
    requires ContextValid(ctx) && LiveUnderRoot(ctx, t)
    requires forall ch :: ch in Children(ctx.scene, t) ==> ch in ctx.scene.transforms
    ensures MergedBelow(ctx, t, s) <==>
              (s == t && CanMerge(ctx, t)) || AddedBelow(ctx, t, Children(ctx.scene, t), |Children(ctx.scene, t)|, s)
  {
    var children := Children(ctx.scene, t);
    if MergedBelow(ctx, t, s) && s != t {
      var ch := LiveSubtreeSplit(ctx, t, s);
      var k :| 0 <= k < |children| && children[k] == ch;
      assert MergedBelow(ctx, children[k], s);
    }
    if AddedBelow(ctx, t, children, |children|, s) {
      var k :| 0 <= k < |children| && children[k] !in ctx.destroyedGameObjects && MergedBelow(ctx, children[k], s);
      LiveSubtreeOfChild(ctx, t, children[k], s);
    }
  }

  /** Some live child of `t` has an animated local pose: the scan ConfigureRecursive makes for a non-identity bone. */
  method AnyChildTransformAnimated(session: Session, mods: ModificationsContainer, t: Comp, ghost ctx: MergeContext)
    returns (r: bool)
    requires ctx.scene == session.scene && ctx.mods == mods && ctx.destroyedGameObjects == session.destroyedGameObjects
    requires WellFormed(ctx.scene) && t in ctx.scene.transforms
    ensures r == ChildTransformAnimated(ctx, t)
  {
    var children := Children(session.scene, t);
    var i := 0;
    while i < |children|
      invariant 0 <= i <= |children|
      invariant forall k :: 0 <= k < i && children[k] !in ctx.destroyedGameObjects ==> !IsTransformAnimated(mods, children[k])
    {
      if children[i] !in session.destroyedGameObjects {
        var animated := TransformAnimated(mods, children[i]);
        if animated {
          return true;
        }
      }
      i := i + 1;
    }
    return false;
  }

  /** The children loop of ConfigureRecursive: configures each live child of `t` in order and reports whether all of them merged. */
  method ConfigureChildren(session: Session, mods: ModificationsContainer, marked: map<Comp, set<DependencyType>>,
                           t: Comp, ghost ctx: MergeContext)
    returns (mergedChildren: bool)
    modifies session`mergeBones
    requires ctx.scene == session.scene && ctx.mods == mods && ctx.marked == marked
    requires ctx.destroyedGameObjects == session.destroyedGameObjects
    requires ctx.destroyedComponents == session.destroyedComponents
    requires ContextValid(ctx) && LiveUnderRoot(ctx, t)
    requires Untouched(ctx.scene, session.mergeBones, ctx.mergeBones, t)
    ensures mergedChildren == MergedPrefix(ctx, t, |Children(ctx.scene, t)|)
    ensures forall s :: s in session.mergeBones <==>
                          s in old(session.mergeBones) || AddedBelow(ctx, t, Children(ctx.scene, t), |Children(ctx.scene, t)|, s)
    decreases Deeper(ctx.scene, ctx.scene.transforms[t].depth), 1
  {
    var children := Children(session.scene, t);
    mergedChildren := true;
    var i := 0;
    while i < |children|
      invariant 0 <= i <= |children|
      invariant mergedChildren == MergedPrefix(ctx, t, i)
      invariant forall s :: s in session.mergeBones <==> s in old(session.mergeBones) || AddedBelow(ctx, t, children, i, s)
    {
      var childMerged := ConfigureChild(session, mods, marked, t, i, ctx, old(session.mergeBones));
      mergedChildren := mergedChildren && childMerged;
      i := i + 1;
    }
  }

  /** One turn of the children loop: configures the `i`-th child of `t` unless the sweep destroyed it. */
  method ConfigureChild(session: Session, mods: ModificationsContainer, marked: map<Comp, set<DependencyType>>,
                        t: Comp, i: int, ghost ctx: MergeContext, ghost start: set<Comp>)
    returns (childMerged: bool)
    modifies session`mergeBones
    requires ctx.scene == session.scene && ctx.mods == mods && ctx.marked == marked
    requires ctx.destroyedGameObjects == session.destroyedGameObjects
    requires ctx.destroyedComponents == session.destroyedComponents
    requires ContextValid(ctx) && LiveUnderRoot(ctx, t) && 0 <= i < |Children(ctx.scene, t)|
    requires Untouched(ctx.scene, start, ctx.mergeBones, t)
    requires forall s :: s in session.mergeBones <==> s in start || AddedBelow(ctx, t, Children(ctx.scene, t), i, s)
    ensures MergedPrefix(ctx, t, i + 1) == (MergedPrefix(ctx, t, i) && childMerged)
    ensures forall s :: s in session.mergeBones <==> s in start || AddedBelow(ctx, t, Children(ctx.scene, t), i + 1, s)
    decreases Deeper(ctx.scene, ctx.scene.transforms[t].depth), 0
  {
    ChildrenAreTransforms(ctx, t);
    var child := Children(session.scene, t)[i];
    ghost var before := session.mergeBones;
    var live := child !in session.destroyedGameObjects;
    childMerged := true;
    if live {
      ChildFacts(ctx, t, child);
      NextChildUntouched(ctx, t, i, start, session.mergeBones);
      childMerged := ConfigureRecursive(session, mods, marked, child, ctx);
    }
    MergedPrefixStep(ctx, t, i);
    AddedBelowStep(ctx, t, i, live, start, before, session.mergeBones);
  }

  /** Adding `t` exactly when it merges completes the subtree: the merged live transforms below `t` are added. */
  lemma SubtreeConfigured(ctx: MergeContext, t: Comp, mergedChildren: bool, merged: bool,
                          start: set<Comp>, now: set<Comp>, final: set<Comp>)
    requires ContextValid(ctx) && LiveUnderRoot(ctx, t)
    requires mergedChildren == MergedPrefix(ctx, t, |Children(ctx.scene, t)|)
    requires merged == MergeDecision(FactsOf(ctx, t, mergedChildren))
    requires t in now <==> t in ctx.mergeBones
    requires t in start <==> t in ctx.mergeBones
    requires MergedBelow(ctx, t, t) == CanMerge(ctx, t)
    requires forall s :: s != t ==> (s in now <==> s in start || MergedBelow(ctx, t, s))
    requires final == if merged && t !in now then now + {t} else now
    ensures merged == CanMerge(ctx, t)
    ensures forall s :: s in final <==> s in start || MergedBelow(ctx, t, s)
  {
    CanMergeFacts(ctx, t);
  }

  /** The decision ladder of ConfigureRecursive for a bone whose children are done: the merge decision on its facts. */
  method MergeAllowed(session: Session, mods: ModificationsContainer, marked: map<Comp, set<DependencyType>>,
                      t: Comp, mergedChildren: bool, ghost ctx: MergeContext)
    returns (merged: bool)
    requires ctx.scene == session.scene && ctx.mods == mods && ctx.marked == marked
    requires ctx.destroyedGameObjects == session.destroyedGameObjects
    requires ctx.destroyedComponents == session.destroyedComponents
    requires t in session.mergeBones <==> t in ctx.mergeBones
    requires WellFormed(ctx.scene) && t in ctx.scene.transforms && t in marked
    ensures merged == MergeDecision(FactsOf(ctx, t, mergedChildren))
  {
    var sc := session.scene;
    if t in session.mergeBones {
      return true;
    }
    if CountLive(Attached(sc, t), session.destroyedComponents) != 1 {
      return false;
    }
    if marked[t] - AllowedUsages != {} {
      return false;
    }
    var animated := TransformAnimated(mods, t);
    if animated {
      return false;
    }
    if !mergedChildren {
      if GameObjectAnimated(mods, t) {
        return false;
      }
      if !sc.transforms[t].identity {
        var childrenTransformAnimated := AnyChildTransformAnimated(session, mods, t, ctx);
        if childrenTransformAnimated {
          return false;
        }
        if !sc.transforms[t].scaledEvenly {
          return false;
        }
      }
    }
    return true;
  }

  /** Adds a MergeBone to the GameObject of `t` when it merges and has none yet. */
  method AddMergeBoneIf(session: Session, t: Comp, merged: bool)
    modifies session`mergeBones
    ensures session.mergeBones == if merged && t !in old(session.mergeBones) then old(session.mergeBones) + {t}
                                  else old(session.mergeBones)
  {
    if merged && t !in session.mergeBones {
      session.AddMergeBone(t);
    }
  }

  /**
   * ConfigureRecursive: configures the live children first, then decides for
   * `t` as CanMerge does, and adds a MergeBone to `t` when it merges and has
   * none. Exactly the merged live transforms of the subtree gain a MergeBone.
   */
  method ConfigureRecursive(session: Session, mods: ModificationsContainer, marked: map<Comp, set<DependencyType>>,
                            t: Comp, ghost ctx: MergeContext)
    returns (merged: bool)
    modifies session`mergeBones
    requires ctx.scene == session.scene && ctx.mods == mods && ctx.marked == marked
    requires ctx.destroyedGameObjects == session.destroyedGameObjects
    requires ctx.destroyedComponents == session.destroyedComponents
    requires ContextValid(ctx) && LiveUnderRoot(ctx, t)
    requires Untouched(ctx.scene, session.mergeBones, ctx.mergeBones, t)
    ensures merged == CanMerge(ctx, t)
    ensures forall s :: s in session.mergeBones <==> s in old(session.mergeBones) || MergedBelow(ctx, t, s)
    decreases Deeper(ctx.scene, ctx.scene.transforms[t].depth), 2
  {
    var mergedChildren := ConfigureChildren(session, mods, marked, t, ctx);
    ghost var now := session.mergeBones;
    ChildrenConfigured(ctx, t, old(session.mergeBones), now);
    merged := MergeAllowed(session, mods, marked, t, mergedChildren, ctx);
    AddMergeBoneIf(session, t, merged);
    SubtreeConfigured(ctx, t, mergedChildren, merged, old(session.mergeBones), now, session.mergeBones);
  }
}
