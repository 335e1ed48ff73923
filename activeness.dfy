/**
 * The three-valued activeness resolver of FindUnusedObjectsProcessor:
 * Some(true) means the component can be active, Some(false) that it never
 * is, None (C#'s null) that it depends on runtime state.
 */
module ActivenessResolver {
  import opened Wrappers
  import opened SceneModel
  import opened Modifications

  /** The component types whose `enabled` flag the resolver reads. */
  predicate HasEnabledFlag(k: Kind) {
    k.Behaviour? || k.Cloth? || k.Collider? || k.LODGroup? || k.Renderer?
  }

  /** The component types that have no `enabled` flag and so are locally always on. */
  predicate HasNoEnabledFlag(k: Kind) {
    || k.CanvasRenderer? || k.Joint? || k.MeshFilter? || k.OcclusionArea? || k.OcclusionPortal?
    || k.ParticleSystem? || k.ParticleSystemForceField? || k.Rigidbody? || k.Rigidbody2D?
    || k.TextMesh? || k.Tree? || k.WindZone? || k.WorldAnchor?
  }

  /** A GameObject's own `m_IsActive`, as the overlay knows it. */
  function ActiveSelf(sc: Scene, mods: ModificationsContainer, t: Comp): Option<bool>
    requires t in sc.components
  {
    GetConstantValue(mods, GameObjectOf(t), "m_IsActive", sc.components[t].enabled)
  }

  /** The component's own flag, before its GameObject's activeness is taken into account. */
  function LocalActiveness(sc: Scene, mods: ModificationsContainer, c: Comp): (r: Option<bool>)
    requires c in sc.components
    ensures KindOf(sc, c) == Transform ==> r == ActiveSelf(sc, mods, c)
    ensures HasEnabledFlag(KindOf(sc, c)) ==>
              r == GetConstantValue(mods, ComponentOf(c), "m_Enabled", sc.components[c].enabled)
    ensures HasNoEnabledFlag(KindOf(sc, c)) ==> r == Some(true)
    ensures KindOf(sc, c) == OtherComponent ==> r == None
  {
    match KindOf(sc, c)
    case Transform => ActiveSelf(sc, mods, c)
    case Behaviour | Cloth | Collider | LODGroup | Renderer =>
      GetConstantValue(mods, ComponentOf(c), "m_Enabled", sc.components[c].enabled)
    case OtherComponent => None
    case _ => Some(true)
  }

  /** False dominates; true needs both sides true; anything else is unknown. */
  function Combine(parent: Option<bool>, local: Option<bool>): (r: Option<bool>)
    ensures r == Some(false) <==> parent == Some(false) || local == Some(false)
    ensures r == Some(true) <==> parent == Some(true) && local == Some(true)
  {
    if parent == Some(false) then Some(false)
    else if local == Some(false) then Some(false)
    else if parent == Some(true) && local == Some(true) then Some(true)
    else None
  }

  /** Termination measure: a parent ranks below its child, a Transform below the components on its GameObject. */
  ghost function Rank(sc: Scene, c: Comp): nat
    requires WellFormed(sc) && c in sc.components
  {
    2 * sc.transforms[TransformOf(sc, c)].depth + (if KindOf(sc, c) == Transform then 0 else 1)
  }

  /** The activeness the component inherits: its parent Transform's for a Transform (true at a scene root), its GameObject's otherwise. */
  ghost function ParentActiveness(sc: Scene, mods: ModificationsContainer, c: Comp): Option<bool>
    requires WellFormed(sc) && c in sc.components
    decreases Rank(sc, c), 0
  {
    if KindOf(sc, c) == Transform then
      match ParentOf(sc, c)
      case None => Some(true)
      case Some(p) => Activeness(sc, mods, p)
    else
      Activeness(sc, mods, TransformOf(sc, c))
  }

  /** The resolved activeness of a component; the avatar root is always active. */
  ghost function Activeness(sc: Scene, mods: ModificationsContainer, c: Comp): Option<bool>
    requires WellFormed(sc) && c in sc.components
    decreases Rank(sc, c), 1
  {
    if c == sc.root then Some(true)
    else Combine(ParentActiveness(sc, mods, c), LocalActiveness(sc, mods, c))
  }

  /**
   * Below the avatar root, a GameObject resolved as never active makes every
   * component on it and on any of its descendants never active.
   */
  lemma {:induction false} InactiveSpreadsDown(sc: Scene, mods: ModificationsContainer, a: Comp, c: Comp)
    requires WellFormed(sc) && a in sc.transforms && c in sc.components
    requires IsAncestorOrSelf(sc, sc.root, a) && IsAncestorOrSelf(sc, a, TransformOf(sc, c))
    requires Activeness(sc, mods, a) == Some(false)
    ensures Activeness(sc, mods, c) == Some(false)
  {
    var t := TransformOf(sc, c);
    InactiveSpreadsToTransform(sc, mods, a, t);
    if c != t {
      assert KindOf(sc, c) != Transform;
    }
  }

  lemma {:induction false} InactiveSpreadsToTransform(sc: Scene, mods: ModificationsContainer, a: Comp, t: Comp)
    requires WellFormed(sc) && a in sc.transforms && t in sc.transforms
    requires IsAncestorOrSelf(sc, sc.root, a) && IsAncestorOrSelf(sc, a, t)
    requires Activeness(sc, mods, a) == Some(false)
    ensures Activeness(sc, mods, t) == Some(false)
    decreases sc.transforms[t].depth
  {
    if t != a {
      var p := ParentOf(sc, t).value;
      InactiveSpreadsToTransform(sc, mods, a, p);
      if t == sc.root {
        AncestorIsShallower(sc, sc.root, a);
        AncestorIsShallower(sc, a, t);
      }
    }
  }
}
