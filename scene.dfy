/**
 * The scene the optimizer works on: components, the transform tree they hang
 * from, and the session's list of components under the avatar root.
 *
 * A GameObject and its Transform are two sides of one object, so a GameObject
 * is identified here by the id of its Transform.
 */
module SceneModel {
  import opened Wrappers

  /** Identity of a Unity component (its instance id). */
  type Comp = nat

  /** The concrete component types the activeness switch distinguishes. */
  datatype Kind =
    | Transform
    // types with an `enabled` flag
    | Behaviour | Cloth | Collider | LODGroup | Renderer
    // types without an `enabled` flag
    | CanvasRenderer | Joint | MeshFilter | OcclusionArea | OcclusionPortal
    | ParticleSystem | ParticleSystemForceField | Rigidbody | Rigidbody2D
    | TextMesh | Tree | WindZone | WorldAnchor
    // any other component type
    | OtherComponent

  /**
   * A component: its type, the Transform of the GameObject it is attached to,
   * and its static flag (`gameObject.activeSelf` for a Transform, `enabled`
   * for the types that have one; unused otherwise).
   */
  datatype CompInfo = CompInfo(kind: Kind, transform: Comp, enabled: bool)

  /**
   * A Transform: its parent (None for a scene root), its direct children in
   * order, the components of its GameObject in order (the Transform first),
   * its depth in the hierarchy, and two facts about its local pose that the
   * model does not compute from floats: whether it is the identity transform
   * and whether its scale passes the merge-bone even-scaling test.
   */
  datatype TransformInfo = TransformInfo(
    parent: Option<Comp>,
    children: seq<Comp>,
    attached: seq<Comp>,
    depth: nat,
    identity: bool,
    scaledEvenly: bool)

  /**
   * Every component reachable from the session, the transforms among them,
   * the avatar root's Transform, and `all`, the session's components (those
   * under the avatar root) in enumeration order.
   */
  datatype Scene = Scene(
    components: map<Comp, CompInfo>,
    transforms: map<Comp, TransformInfo>,
    root: Comp,
    all: seq<Comp>)

  ghost predicate Distinct<T>(s: seq<T>) {
    forall i, j :: 0 <= i < j < |s| ==> s[i] != s[j]
  }

  lemma DistinctConcat<T>(a: seq<T>, b: seq<T>)
    requires Distinct(a) && Distinct(b) && forall x :: x in a ==> x !in b
    ensures Distinct(a + b)
  {
    forall i, j | 0 <= i < j < |a + b| ensures (a + b)[i] != (a + b)[j] {
      if j < |a| {
        assert (a + b)[i] == a[i] && (a + b)[j] == a[j];
      } else if i >= |a| {
        assert (a + b)[i] == b[i - |a|] && (a + b)[j] == b[j - |a|];
      } else {
        assert (a + b)[i] == a[i] && a[i] in a;
        assert (a + b)[j] == b[j - |a|] && b[j - |a|] in b;
      }
    }
  }

  /** Each component belongs to a GameObject that lists it once; Transforms are their own GameObject. */
  ghost predicate ComponentsWellFormed(sc: Scene) {
    && (forall t :: t in sc.transforms ==> Distinct(sc.transforms[t].attached))
    && (forall c :: c in sc.components ==>
          sc.components[c].transform in sc.transforms && c in sc.transforms[sc.components[c].transform].attached)
    && (forall c :: c in sc.components ==> (sc.components[c].kind == Transform <==> c in sc.transforms))
    && (forall t :: t in sc.transforms ==> t in sc.components && sc.components[t].transform == t)
  }

  /** Parent and child links agree, and a parent is strictly shallower than its child (no cycles). */
  ghost predicate TreeWellFormed(sc: Scene) {
    && (forall t :: t in sc.transforms && sc.transforms[t].parent.Some? ==>
          var p := sc.transforms[t].parent.value;
          p in sc.transforms && sc.transforms[p].depth < sc.transforms[t].depth && t in sc.transforms[p].children)
    && (forall t :: t in sc.transforms ==> Distinct(sc.transforms[t].children))
    && (forall t, ch {:trigger ch in sc.transforms[t].children} :: t in sc.transforms && ch in sc.transforms[t].children ==>
          ch in sc.transforms && sc.transforms[ch].parent == Some(t))
    && (forall t, c {:trigger c in sc.transforms[t].attached} :: t in sc.transforms && c in sc.transforms[t].attached ==>
          c in sc.components && sc.components[c].transform == t)
  }

  /** The session's components are distinct, include the root and are closed under children and attached components. */
  ghost predicate SessionWellFormed(sc: Scene) {
    && Distinct(sc.all)
    && sc.root in sc.transforms
    && sc.root in sc.all
    && (forall c :: c in sc.all ==> c in sc.components)
    && (forall t, ch {:trigger ch in sc.transforms[t].children, t in sc.all} ::
          t in sc.all && t in sc.transforms && ch in sc.transforms[t].children ==> ch in sc.all)
    && (forall t, c {:trigger c in sc.transforms[t].attached, t in sc.all} ::
          t in sc.all && t in sc.transforms && c in sc.transforms[t].attached ==> c in sc.all)
  }

  ghost predicate WellFormed(sc: Scene) {
    ComponentsWellFormed(sc) && TreeWellFormed(sc) && SessionWellFormed(sc)
  }

  function KindOf(sc: Scene, c: Comp): Kind
    requires c in sc.components
  {
    sc.components[c].kind
  }

  function TransformOf(sc: Scene, c: Comp): Comp
    requires c in sc.components
  {
    sc.components[c].transform
  }

  function ParentOf(sc: Scene, t: Comp): Option<Comp>
    requires t in sc.transforms
  {
    sc.transforms[t].parent
  }

  function Children(sc: Scene, t: Comp): seq<Comp>
    requires t in sc.transforms
  {
    sc.transforms[t].children
  }

  function Attached(sc: Scene, t: Comp): seq<Comp>
    requires t in sc.transforms
  {
    sc.transforms[t].attached
  }

  /** `a` is `t` or one of its ancestors. */
  ghost predicate IsAncestorOrSelf(sc: Scene, a: Comp, t: Comp)
    requires WellFormed(sc) && t in sc.transforms
    decreases sc.transforms[t].depth
  {
    a == t || (ParentOf(sc, t).Some? && IsAncestorOrSelf(sc, a, ParentOf(sc, t).value))
  }

  lemma {:induction false} AncestorIsShallower(sc: Scene, a: Comp, t: Comp)
    requires WellFormed(sc) && t in sc.transforms && IsAncestorOrSelf(sc, a, t)
    ensures a in sc.transforms && sc.transforms[a].depth <= sc.transforms[t].depth
    ensures sc.transforms[a].depth == sc.transforms[t].depth ==> a == t
    decreases sc.transforms[t].depth
  {
    if a != t {
      AncestorIsShallower(sc, a, ParentOf(sc, t).value);
    }
  }

  lemma {:induction false} AncestorTransitive(sc: Scene, a: Comp, b: Comp, t: Comp)
    requires WellFormed(sc) && b in sc.transforms && t in sc.transforms
    requires IsAncestorOrSelf(sc, a, b) && IsAncestorOrSelf(sc, b, t)
    ensures IsAncestorOrSelf(sc, a, t)
    decreases sc.transforms[t].depth
  {
    if b != t {
      AncestorTransitive(sc, a, b, ParentOf(sc, t).value);
    }
  }

  /** A strict descendant of `t` lies in the subtree of one of `t`'s children. */
  lemma {:induction false} ChildOnPath(sc: Scene, t: Comp, s: Comp) returns (ch: Comp)
    requires WellFormed(sc) && t in sc.transforms && s in sc.transforms
    requires IsAncestorOrSelf(sc, t, s) && s != t
    ensures ch in Children(sc, t) && ch in sc.transforms && IsAncestorOrSelf(sc, ch, s)
    decreases sc.transforms[s].depth
  {
    var p := ParentOf(sc, s).value;
    if p == t {
      ch := s;
    } else {
      ch := ChildOnPath(sc, t, p);
      AncestorTransitive(sc, ch, p, s);
    }
  }

  /** Every Transform under the avatar root belongs to the session. */
  lemma {:induction false} UnderRootInSession(sc: Scene, t: Comp)
    requires WellFormed(sc) && t in sc.transforms && IsAncestorOrSelf(sc, sc.root, t)
    ensures t in sc.all
    decreases sc.transforms[t].depth
  {
    if t != sc.root {
      var p := ParentOf(sc, t).value;
      UnderRootInSession(sc, p);
      assert t in Children(sc, p);
    }
  }

  /** The transforms at least `d` deep: the measure for recursion down the tree. */
  ghost function Deeper(sc: Scene, d: nat): set<Comp> {
    set t | t in sc.transforms && sc.transforms[t].depth >= d
  }

  lemma ChildIsDeeper(sc: Scene, t: Comp, ch: Comp)
    requires WellFormed(sc) && t in sc.transforms && ch in Children(sc, t)
    ensures ch in sc.transforms
    ensures Deeper(sc, sc.transforms[ch].depth) < Deeper(sc, sc.transforms[t].depth)
  {
    assert t in Deeper(sc, sc.transforms[t].depth);
  }

  /** The ancestors of a transform are ordered: of two of them, one is an ancestor of the other. */
  lemma {:induction false} AncestorsOrdered(sc: Scene, a: Comp, b: Comp, s: Comp)
    requires WellFormed(sc) && s in sc.transforms && IsAncestorOrSelf(sc, a, s) && IsAncestorOrSelf(sc, b, s)
    ensures a in sc.transforms && b in sc.transforms
    ensures IsAncestorOrSelf(sc, a, b) || IsAncestorOrSelf(sc, b, a)
    decreases sc.transforms[s].depth
  {
    AncestorIsShallower(sc, a, s);
    AncestorIsShallower(sc, b, s);
    if a != s && b != s {
      AncestorsOrdered(sc, a, b, ParentOf(sc, s).value);
    }
  }

  /** A transform is never in the subtree of one of its own children. */
  lemma NotBelowOwnChild(sc: Scene, t: Comp, ch: Comp)
    requires WellFormed(sc) && t in sc.transforms && ch in Children(sc, t)
    ensures !IsAncestorOrSelf(sc, ch, t)
  {
    if IsAncestorOrSelf(sc, ch, t) {
      AncestorIsShallower(sc, ch, t);
    }
  }

  /** A strict ancestor of a child is an ancestor of the child's parent. */
  lemma StrictAncestorOfChild(sc: Scene, t: Comp, ch: Comp, a: Comp)
    requires WellFormed(sc) && t in sc.transforms && ch in Children(sc, t)
    requires IsAncestorOrSelf(sc, a, ch) && a != ch
    ensures IsAncestorOrSelf(sc, a, t)
  {
    assert ParentOf(sc, ch) == Some(t);
  }

  /** One child of a transform is never an ancestor of a different child. */
  lemma ChildNotAboveSibling(sc: Scene, t: Comp, ch1: Comp, ch2: Comp)
    requires WellFormed(sc) && t in sc.transforms
    requires ch1 in Children(sc, t) && ch2 in Children(sc, t) && ch1 != ch2
    ensures !IsAncestorOrSelf(sc, ch1, ch2)
  {
    if IsAncestorOrSelf(sc, ch1, ch2) {
      StrictAncestorOfChild(sc, t, ch2, ch1);
      AncestorIsShallower(sc, ch1, t);
    }
  }

  /** The subtrees of two different children of one transform are disjoint. */
  lemma SiblingSubtreesDisjoint(sc: Scene, t: Comp, ch1: Comp, ch2: Comp, s: Comp)
    requires WellFormed(sc) && t in sc.transforms && s in sc.transforms
    requires ch1 in Children(sc, t) && ch2 in Children(sc, t) && ch1 != ch2
    requires IsAncestorOrSelf(sc, ch1, s)
    ensures !IsAncestorOrSelf(sc, ch2, s)
  {
    ChildNotAboveSibling(sc, t, ch1, ch2);
    ChildNotAboveSibling(sc, t, ch2, ch1);
    if IsAncestorOrSelf(sc, ch2, s) {
      AncestorsOrdered(sc, ch1, ch2, s);
    }
  }
}
