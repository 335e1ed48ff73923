/**
 * The optimizer session's view of what has been destroyed and which
 * GameObjects carry a MergeBone component. Destroying a GameObject destroys
 * everything below it, so a component is gone when it was destroyed itself or
 * when the GameObject of it or of any ancestor was.
 */
module Sessions {
  import opened Wrappers
  import opened SceneModel

  /** The GameObject of `t` is destroyed: it or one of its ancestors is in `D`. */
  predicate Destroyed(sc: Scene, D: set<Comp>, t: Comp)
    requires WellFormed(sc) && t in sc.transforms
    decreases sc.transforms[t].depth
  {
    t in D || (ParentOf(sc, t).Some? && Destroyed(sc, D, ParentOf(sc, t).value))
  }

  /** Unity's `!component`: the component was destroyed, alone or with its GameObject. */
  predicate Gone(sc: Scene, D: set<Comp>, C: set<Comp>, c: Comp)
    requires WellFormed(sc) && c in sc.components
  {
    c in C || Destroyed(sc, D, TransformOf(sc, c))
  }

  /** Destroying more never brings anything back. */
  lemma {:induction false} DestroyedMonotone(sc: Scene, D1: set<Comp>, D2: set<Comp>, t: Comp)
    requires WellFormed(sc) && t in sc.transforms && D1 <= D2 && Destroyed(sc, D1, t)
    ensures Destroyed(sc, D2, t)
    decreases sc.transforms[t].depth
  {
    if t !in D1 {
      DestroyedMonotone(sc, D1, D2, ParentOf(sc, t).value);
    }
  }

  /** What is gone stays gone. */
  lemma GoneMonotone(sc: Scene, D1: set<Comp>, C1: set<Comp>, D2: set<Comp>, C2: set<Comp>, c: Comp)
    requires WellFormed(sc) && c in sc.components && D1 <= D2 && C1 <= C2 && Gone(sc, D1, C1, c)
    ensures Gone(sc, D2, C2, c)
  {
    if c !in C1 {
      DestroyedMonotone(sc, D1, D2, TransformOf(sc, c));
    }
  }

  /** Destroying a GameObject destroys every GameObject below it. */
  lemma {:induction false} DestroyedBelow(sc: Scene, D: set<Comp>, a: Comp, t: Comp)
    requires WellFormed(sc) && t in sc.transforms && a in D && IsAncestorOrSelf(sc, a, t)
    ensures Destroyed(sc, D, t)
    decreases sc.transforms[t].depth
  {
    if a != t {
      DestroyedBelow(sc, D, a, ParentOf(sc, t).value);
    }
  }

  /** A destroyed GameObject has a destroyed ancestor-or-self in `D`. */
  lemma {:induction false} DestroyedWitness(sc: Scene, D: set<Comp>, t: Comp) returns (a: Comp)
    requires WellFormed(sc) && t in sc.transforms && Destroyed(sc, D, t)
    ensures a in D && IsAncestorOrSelf(sc, a, t)
    decreases sc.transforms[t].depth
  {
    if t in D {
      a := t;
    } else {
      a := DestroyedWitness(sc, D, ParentOf(sc, t).value);
    }
  }

  /** Everything below a destroyed GameObject is destroyed. */
  lemma DestroyedSpreads(sc: Scene, D: set<Comp>, a: Comp, t: Comp)
    requires WellFormed(sc) && a in sc.transforms && t in sc.transforms
    requires Destroyed(sc, D, a) && IsAncestorOrSelf(sc, a, t)
    ensures Destroyed(sc, D, t)
  {
    var w := DestroyedWitness(sc, D, a);
    AncestorTransitive(sc, w, a, t);
    DestroyedBelow(sc, D, w, t);
  }

  /** Below a live GameObject, a child is live exactly when it was not destroyed itself. */
  lemma LiveChild(sc: Scene, D: set<Comp>, t: Comp, ch: Comp)
    requires WellFormed(sc) && t in sc.transforms && ch in Children(sc, t) && !Destroyed(sc, D, t)
    ensures ch in sc.transforms
    ensures Destroyed(sc, D, ch) <==> ch in D
  {
    assert ParentOf(sc, ch) == Some(t);
  }

  /**
   * The session: the scene it was built from, the GameObjects and components
   * destroyed so far, and the GameObjects that carry a MergeBone component.
   */
  class Session {
    const scene: Scene
    var destroyedGameObjects: set<Comp>
    var destroyedComponents: set<Comp>
    var mergeBones: set<Comp>

    /** A fresh session: nothing destroyed yet. */
    constructor(scene: Scene, mergeBones: set<Comp>)
      ensures this.scene == scene && this.mergeBones == mergeBones
      ensures destroyedGameObjects == {} && destroyedComponents == {}
    {
      this.scene := scene;
      this.mergeBones := mergeBones;
      destroyedGameObjects := {};
      destroyedComponents := {};
    }

    /** Unity's `!component` on this session's objects. */
    predicate IsGone(c: Comp)
      reads this
      requires WellFormed(scene) && c in scene.components
    {
      Gone(scene, destroyedGameObjects, destroyedComponents, c)
    }

    /** Object.DestroyImmediate on a GameObject. */
    method DestroyGameObject(t: Comp)
      modifies this`destroyedGameObjects
      ensures destroyedGameObjects == old(destroyedGameObjects) + {t}
    {
      destroyedGameObjects := destroyedGameObjects + {t};
    }

    /** Object.DestroyImmediate on a single component. */
    method DestroyComponent(c: Comp)
      modifies this`destroyedComponents
      ensures destroyedComponents == old(destroyedComponents) + {c}
    {
      destroyedComponents := destroyedComponents + {c};
    }

    /** AddComponent<MergeBone> on the GameObject of `t`. */
    method AddMergeBone(t: Comp)
      modifies this`mergeBones
      ensures mergeBones == old(mergeBones) + {t}
    {
      mergeBones := mergeBones + {t};
    }
  }
}
