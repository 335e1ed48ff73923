/**
 * The entry-point builder: a breadth-first walk of the transform tree from the
 * avatar root that prunes every GameObject whose own `m_IsActive` is
 * constantly false, together with its whole subtree.
 */
module EntryPoints {
  import opened Wrappers
  import opened SceneModel
  import opened Modifications
  import opened ActivenessResolver

  /**
   * The GameObjects the walk yields: its own flag is not constantly false and,
   * unless it is the avatar root, its parent is yielded too.
   */
  ghost predicate ActiveAble(sc: Scene, mods: ModificationsContainer, t: Comp)
    requires WellFormed(sc) && t in sc.transforms
    decreases sc.transforms[t].depth
  {
    && ActiveSelf(sc, mods, t) != Some(false)
    && (t == sc.root || (ParentOf(sc, t).Some? && ActiveAble(sc, mods, ParentOf(sc, t).value)))
  }

  /** The walk's bookkeeping: `visited` holds the GameObjects dequeued so far, `queue` those still waiting. */
  ghost predicate WalkShape(sc: Scene, queue: seq<Comp>, visited: set<Comp>, gameObjects: seq<Comp>)
    requires WellFormed(sc)
  {
    && Distinct(queue) && Distinct(gameObjects)
    && (forall x :: x in queue ==> x !in visited)
    && (forall x :: x in queue ==> x in sc.transforms && sc.transforms[x].depth >= sc.transforms[sc.root].depth)
    && (forall x :: x in visited ==> x in sc.transforms && sc.transforms[x].depth >= sc.transforms[sc.root].depth)
    && (forall x :: x in gameObjects ==> x in visited)
    && (sc.root in queue || sc.root in visited)
  }

  /** What the walk has established: each queued or visited GameObject came from a yielded parent, and each yielded one satisfies ActiveAble. */
  ghost predicate WalkLinks(sc: Scene, mods: ModificationsContainer, queue: seq<Comp>, visited: set<Comp>,
                            gameObjects: seq<Comp>)
    requires WellFormed(sc) && WalkShape(sc, queue, visited, gameObjects)
  {
    && (forall x :: x in queue ==> x == sc.root || (ParentOf(sc, x).Some? && ParentOf(sc, x).value in gameObjects))
    && (forall x :: x in visited ==> x == sc.root || (ParentOf(sc, x).Some? && ParentOf(sc, x).value in gameObjects))
    && (forall x :: x in gameObjects ==> ActiveAble(sc, mods, x))
    && (forall x :: x in visited ==> (x in gameObjects <==> ActiveSelf(sc, mods, x) != Some(false)))
    && (forall x, ch :: x in gameObjects && ch in Children(sc, x) ==> ch in queue || ch in visited)
  }

  ghost predicate WalkInvariant(sc: Scene, mods: ModificationsContainer, queue: seq<Comp>, visited: set<Comp>,
                                gameObjects: seq<Comp>)
    requires WellFormed(sc)
  {
    WalkShape(sc, queue, visited, gameObjects) && WalkLinks(sc, mods, queue, visited, gameObjects)
  }

  /** Dequeuing a GameObject whose own flag is constantly false keeps the walk's invariant. */
  lemma WalkPrune(sc: Scene, mods: ModificationsContainer, queue: seq<Comp>, visited: set<Comp>, gameObjects: seq<Comp>)
    requires WellFormed(sc) && WalkInvariant(sc, mods, queue, visited, gameObjects) && queue != []
    requires ActiveSelf(sc, mods, queue[0]) == Some(false)
    ensures WalkInvariant(sc, mods, queue[1..], visited + {queue[0]}, gameObjects)
  {
    DequeueFacts(queue);
    WalkPruneShape(sc, queue, visited, gameObjects);
    WalkPruneLinks(sc, mods, queue, visited, gameObjects);
  }

  lemma WalkPruneShape(sc: Scene, queue: seq<Comp>, visited: set<Comp>, gameObjects: seq<Comp>)
    requires WellFormed(sc) && WalkShape(sc, queue, visited, gameObjects) && queue != []
    requires Distinct(queue[1..]) && forall x :: x in queue[1..] ==> x in queue && x != queue[0]
    ensures WalkShape(sc, queue[1..], visited + {queue[0]}, gameObjects)
  {
  }

  lemma WalkPruneLinks(sc: Scene, mods: ModificationsContainer, queue: seq<Comp>, visited: set<Comp>, gameObjects: seq<Comp>)
    requires WellFormed(sc) && WalkInvariant(sc, mods, queue, visited, gameObjects) && queue != []
    requires ActiveSelf(sc, mods, queue[0]) == Some(false)
    requires forall x :: x in queue[1..] ==> x in queue
    requires forall x :: x in queue ==> x == queue[0] || x in queue[1..]
    requires WalkShape(sc, queue[1..], visited + {queue[0]}, gameObjects)
    ensures WalkLinks(sc, mods, queue[1..], visited + {queue[0]}, gameObjects)
  {
    WalkPruneVisited(sc, mods, queue, visited, gameObjects);
    WalkPruneClosed(sc, mods, queue, visited, gameObjects);
  }

  /** The pruned GameObject joins the visited ones: it has a yielded parent and is not yielded itself. */
  lemma WalkPruneVisited(sc: Scene, mods: ModificationsContainer, queue: seq<Comp>, visited: set<Comp>, gameObjects: seq<Comp>)
    requires WellFormed(sc) && WalkInvariant(sc, mods, queue, visited, gameObjects) && queue != []
    requires ActiveSelf(sc, mods, queue[0]) == Some(false)
    ensures forall x :: x in visited + {queue[0]} ==>
              x in sc.transforms && (x == sc.root || (ParentOf(sc, x).Some? && ParentOf(sc, x).value in gameObjects))
    ensures forall x :: x in visited + {queue[0]} ==>
              x in sc.transforms && (x in gameObjects <==> ActiveSelf(sc, mods, x) != Some(false))
  {
    assert queue[0] in queue;
  }

  /** The children of the yielded GameObjects stay queued or visited when the head moves to the visited set. */
  lemma WalkPruneClosed(sc: Scene, mods: ModificationsContainer, queue: seq<Comp>, visited: set<Comp>, gameObjects: seq<Comp>)
    requires WellFormed(sc) && WalkInvariant(sc, mods, queue, visited, gameObjects) && queue != []
    requires forall x :: x in queue ==> x == queue[0] || x in queue[1..]
    ensures forall x, ch :: x in gameObjects && ch in Children(sc, x) ==> ch in queue[1..] || ch in visited + {queue[0]}
  {
    forall x, ch | x in gameObjects && ch in Children(sc, x) ensures ch in queue[1..] || ch in visited + {queue[0]} {
      assert ch in queue || ch in visited;
    }
  }

  lemma DequeueFacts(queue: seq<Comp>)
    requires queue != [] && Distinct(queue)
    ensures Distinct(queue[1..])
    ensures forall x :: x in queue[1..] ==> x in queue && x != queue[0]
    ensures forall x :: x in queue ==> x == queue[0] || x in queue[1..]
  {
    forall x | x in queue[1..] ensures x in queue && x != queue[0] {
      var i :| 0 <= i < |queue[1..]| && queue[1..][i] == x;
      assert queue[i + 1] == x;
    }
  }

  /** The children of a dequeued GameObject are fresh to the walk and one level deeper. */
  lemma ChildrenAreFresh(sc: Scene, queue: seq<Comp>, visited: set<Comp>, gameObjects: seq<Comp>)
    requires WellFormed(sc) && WalkShape(sc, queue, visited, gameObjects) && queue != []
    requires forall x :: x in queue ==> x == sc.root || (ParentOf(sc, x).Some? && ParentOf(sc, x).value in gameObjects)
    requires forall x :: x in visited ==> x == sc.root || (ParentOf(sc, x).Some? && ParentOf(sc, x).value in gameObjects)
    ensures forall ch :: ch in Children(sc, queue[0]) ==>
      ch !in queue && ch !in visited && ch in sc.transforms && ParentOf(sc, ch) == Some(queue[0])
      && sc.transforms[ch].depth >= sc.transforms[sc.root].depth
  {
    var g := queue[0];
    assert g !in visited;
    assert g !in gameObjects;
    forall ch | ch in Children(sc, g)
      ensures ch !in queue && ch !in visited && ch in sc.transforms && ParentOf(sc, ch) == Some(g)
    {
      assert ch in sc.transforms && ParentOf(sc, ch) == Some(g);
      assert sc.transforms[ch].depth > sc.transforms[g].depth >= sc.transforms[sc.root].depth;
      assert ch != sc.root;
    }
  }

  lemma WalkYieldShape(sc: Scene, queue: seq<Comp>, visited: set<Comp>, gameObjects: seq<Comp>)
    requires WellFormed(sc) && WalkShape(sc, queue, visited, gameObjects) && queue != []
    requires forall ch :: ch in Children(sc, queue[0]) ==>
      ch !in queue && ch !in visited && ch in sc.transforms && sc.transforms[ch].depth >= sc.transforms[sc.root].depth
    ensures WalkShape(sc, queue[1..] + Children(sc, queue[0]), visited + {queue[0]}, gameObjects + [queue[0]])
  {
    var g := queue[0];
    DequeueFacts(queue);
    DistinctConcat(gameObjects, [g]);
    DistinctConcat(queue[1..], Children(sc, g));
  }

  lemma WalkYieldLinks(sc: Scene, mods: ModificationsContainer, queue: seq<Comp>, visited: set<Comp>,
                       gameObjects: seq<Comp>)
    requires WellFormed(sc) && WalkInvariant(sc, mods, queue, visited, gameObjects) && queue != []
    requires ActiveSelf(sc, mods, queue[0]) != Some(false)
    requires forall ch :: ch in Children(sc, queue[0]) ==>
      ch !in queue && ch !in visited && ch in sc.transforms && ParentOf(sc, ch) == Some(queue[0])
    requires WalkShape(sc, queue[1..] + Children(sc, queue[0]), visited + {queue[0]}, gameObjects + [queue[0]])
    ensures WalkLinks(sc, mods, queue[1..] + Children(sc, queue[0]), visited + {queue[0]}, gameObjects + [queue[0]])
  {
    DequeueFacts(queue);
    WalkYieldParents(sc, mods, queue, visited, gameObjects);
    WalkYieldClosed(sc, mods, queue, visited, gameObjects);
  }

  /** After yielding the head, every queued or visited GameObject still has a yielded parent, and the yielded ones are ActiveAble. */
  lemma WalkYieldParents(sc: Scene, mods: ModificationsContainer, queue: seq<Comp>, visited: set<Comp>,
                         gameObjects: seq<Comp>)
    requires WellFormed(sc) && WalkInvariant(sc, mods, queue, visited, gameObjects) && queue != []
    requires ActiveSelf(sc, mods, queue[0]) != Some(false)
    requires forall ch :: ch in Children(sc, queue[0]) ==> ch in sc.transforms && ParentOf(sc, ch) == Some(queue[0])
    requires forall x :: x in queue ==> x == queue[0] || x in queue[1..]
    requires forall x :: x in queue[1..] ==> x in queue
    ensures forall x :: x in queue[1..] + Children(sc, queue[0]) ==>
              x in sc.transforms && (x == sc.root || (ParentOf(sc, x).Some? && ParentOf(sc, x).value in gameObjects + [queue[0]]))
    ensures forall x :: x in visited + {queue[0]} ==>
              x in sc.transforms && (x == sc.root || (ParentOf(sc, x).Some? && ParentOf(sc, x).value in gameObjects + [queue[0]]))
    ensures forall x :: x in gameObjects + [queue[0]] ==> x in sc.transforms && ActiveAble(sc, mods, x)
    ensures forall x :: x in visited + {queue[0]} ==>
              x in sc.transforms && (x in gameObjects + [queue[0]] <==> ActiveSelf(sc, mods, x) != Some(false))
  {
    var g := queue[0];
    assert ActiveAble(sc, mods, g);
  }

  /** After yielding the head, the children of every yielded GameObject are queued or visited. */
  lemma WalkYieldClosed(sc: Scene, mods: ModificationsContainer, queue: seq<Comp>, visited: set<Comp>,
                        gameObjects: seq<Comp>)
    requires WellFormed(sc) && WalkInvariant(sc, mods, queue, visited, gameObjects) && queue != []
    requires forall x :: x in queue ==> x == queue[0] || x in queue[1..]
    ensures forall x, ch :: x in gameObjects + [queue[0]] && ch in Children(sc, x) ==>
              ch in queue[1..] + Children(sc, queue[0]) || ch in visited + {queue[0]}
  {
    var g := queue[0];
    forall x, ch | x in gameObjects + [g] && ch in Children(sc, x)
      ensures ch in queue[1..] + Children(sc, g) || ch in visited + {g}
    {
      if x != g {
        assert x in gameObjects;
      }
    }
  }

  /** Dequeuing a GameObject that can be active, yielding it and enqueuing its children keeps the walk's invariant. */
  lemma WalkYield(sc: Scene, mods: ModificationsContainer, queue: seq<Comp>, visited: set<Comp>, gameObjects: seq<Comp>)
    requires WellFormed(sc) && WalkInvariant(sc, mods, queue, visited, gameObjects) && queue != []
    requires ActiveSelf(sc, mods, queue[0]) != Some(false)
    ensures WalkInvariant(sc, mods, queue[1..] + Children(sc, queue[0]), visited + {queue[0]}, gameObjects + [queue[0]])
  {
    ChildrenAreFresh(sc, queue, visited, gameObjects);
    WalkYieldShape(sc, queue, visited, gameObjects);
    WalkYieldLinks(sc, mods, queue, visited, gameObjects);
  }

  /** The GameObjects that may be active, each once, in breadth-first order from the avatar root. */
  method CollectAllActiveAbleGameObjects(sc: Scene, mods: ModificationsContainer) returns (gameObjects: seq<Comp>)
    requires WellFormed(sc)
    ensures Distinct(gameObjects)
    ensures forall t :: t in gameObjects ==> t in sc.transforms && ActiveAble(sc, mods, t)
    ensures forall t :: t in sc.transforms && ActiveAble(sc, mods, t) ==> t in gameObjects
  {
    var queue := [sc.root];
    gameObjects := [];
    ghost var visited: set<Comp> := {};
    while queue != []
      invariant WalkInvariant(sc, mods, queue, visited, gameObjects)
      decreases sc.transforms.Keys - visited
    {
      var gameObject := queue[0];
      var activeNess := ActiveSelf(sc, mods, gameObject);
      if activeNess != Some(false) {
        // this GameObject can be active: yield it and walk its children
        WalkYield(sc, mods, queue, visited, gameObjects);
        gameObjects := gameObjects + [gameObject];
        queue := queue[1..] + Children(sc, gameObject);
      } else {
        // this GameObject and its children are never active
        WalkPrune(sc, mods, queue, visited, gameObjects);
        queue := queue[1..];
      }
      visited := visited + {gameObject};
    }
    forall t | t in sc.transforms && ActiveAble(sc, mods, t) ensures t in gameObjects {
      WalkReaches(sc, mods, gameObjects, visited, t);
    }
  }

  /** When the walk is over, every GameObject satisfying ActiveAble has been yielded. */
  lemma {:induction false} WalkReaches(sc: Scene, mods: ModificationsContainer, gameObjects: seq<Comp>,
                                       visited: set<Comp>, t: Comp)
    requires WellFormed(sc) && t in sc.transforms && ActiveAble(sc, mods, t)
    requires sc.root in visited && visited <= sc.transforms.Keys
    requires forall x :: x in visited ==> (x in gameObjects <==> ActiveSelf(sc, mods, x) != Some(false))
    requires forall x :: x in gameObjects ==> x in sc.transforms
    requires forall x, ch :: x in gameObjects && ch in Children(sc, x) ==> ch in visited
    ensures t in gameObjects
    decreases sc.transforms[t].depth
  {
    if t != sc.root {
      var p := ParentOf(sc, t).value;
      WalkReaches(sc, mods, gameObjects, visited, p);
      assert t in Children(sc, p);
    }
  }

  /** A GameObject the walk yields is never resolved as inactive. */
  lemma {:induction false} ActiveAbleIsNotInactive(sc: Scene, mods: ModificationsContainer, t: Comp)
    requires WellFormed(sc) && t in sc.transforms && ActiveAble(sc, mods, t)
    ensures Activeness(sc, mods, t) != Some(false)
    decreases sc.transforms[t].depth
  {
    if t != sc.root {
      ActiveAbleIsNotInactive(sc, mods, ParentOf(sc, t).value);
    }
  }

  /**
   * Below the avatar root, a GameObject whose own flag is constantly false is
   * not yielded, and neither is any of its descendants.
   */
  lemma {:induction false} InactiveSelfPrunesSubtree(sc: Scene, mods: ModificationsContainer, a: Comp, t: Comp)
    requires WellFormed(sc) && a in sc.transforms && t in sc.transforms
    requires IsAncestorOrSelf(sc, sc.root, a) && IsAncestorOrSelf(sc, a, t)
    requires ActiveSelf(sc, mods, a) == Some(false)
    ensures !ActiveAble(sc, mods, t)
    decreases sc.transforms[t].depth
  {
    if t != a {
      if t == sc.root {
        AncestorIsShallower(sc, sc.root, a);
        AncestorIsShallower(sc, a, t);
      }
      InactiveSelfPrunesSubtree(sc, mods, a, ParentOf(sc, t).value);
    }
  }

  /** A yielded GameObject lies under the avatar root, so it is one of the session's components. */
  lemma {:induction false} ActiveAbleInSession(sc: Scene, mods: ModificationsContainer, t: Comp)
    requires WellFormed(sc) && t in sc.transforms && ActiveAble(sc, mods, t)
    ensures IsAncestorOrSelf(sc, sc.root, t) && t in sc.all
    decreases sc.transforms[t].depth
  {
    if t != sc.root {
      var p := ParentOf(sc, t).value;
      ActiveAbleInSession(sc, mods, p);
      assert t in Children(sc, p);
    }
  }
}
