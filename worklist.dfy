/**
 * The state of the mark phase as values: the keep-reason masks of the
 * components marked so far, the pending queue, and the edges already followed;
 * the invariant the worklist keeps, and one lemma per step of the worklist.
 */
module Worklist {
  import opened SceneModel
  import opened Dependencies
  import opened Marking

  /** A keep-reason mask: the usage types a component is kept for. */
  type Mask = set<DependencyType>

  type Marks = map<Comp, Mask>

  /** Queue entries: a marked component and whether it can be active. */
  type Pending = seq<(Comp, bool)>

  /** An edge, as its source component and its index among that component's dependencies. */
  type EdgeId = (Comp, int)

  ghost function Queued(pending: Pending): set<Comp> {
    set i | 0 <= i < |pending| :: pending[i].0
  }

  /** Queue entries are distinct, not yet processed, carry the right `canBeActive` flag, and with the processed ones make up the marked set. */
  ghost predicate QueueShape(g: Graph, marked: Marks, pending: Pending, P: set<Comp>) {
    && (forall i, k :: 0 <= i < k < |pending| ==> pending[i].0 != pending[k].0)
    && (forall i :: 0 <= i < |pending| ==> pending[i].0 !in P && pending[i].1 == (pending[i].0 in g.active))
    && marked.Keys == Queued(pending) + P
    && marked.Keys <= g.nodes
  }

  ghost function Target(g: Graph, e: EdgeId): Comp
    requires e.0 in g.collector && 0 <= e.1 < |g.collector[e.0].dependencies|
  {
    Edge(g, e.0, e.1).target
  }

  ghost function Types(g: Graph, e: EdgeId): Mask
    requires e.0 in g.collector && 0 <= e.1 < |g.collector[e.0].dependencies|
  {
    Edge(g, e.0, e.1).types
  }

  /** Why `d` carries `t` once the edges in `F` have been followed. */
  ghost predicate ReasonF(g: Graph, F: set<EdgeId>, d: Comp, t: DependencyType) {
    (t == Normal && d in g.seeds) || KeptByEdges(g, F, d, t)
  }

  /** A firing edge in `F` to `d` carries usage type `t`. */
  ghost predicate KeptByEdges(g: Graph, F: set<EdgeId>, d: Comp, t: DependencyType) {
    exists e :: e in F && EdgeFires(g, e.0, e.1) && Target(g, e) == d && t in Types(g, e)
  }

  ghost predicate MaskExact(g: Graph, marked: Marks, F: set<EdgeId>) {
    forall d, t :: d in marked ==> (t in marked[d] <==> ReasonF(g, F, d, t))
  }

  ghost predicate Complete(g: Graph, marked: Marks, F: set<EdgeId>) {
    forall e :: e in F && EdgeFires(g, e.0, e.1) ==> Target(g, e) in marked
  }

  ghost predicate BelowClosed(g: Graph, marked: Marks) {
    forall S :: Closed(g, S) ==> marked.Keys <= S
  }

  /** The invariant of the propagation loop, for processed components `P` and followed edges `F`. */
  ghost predicate MarkInvariant(g: Graph, marked: Marks, pending: Pending, P: set<Comp>, F: set<EdgeId>) {
    && QueueShape(g, marked, pending, P)
    && MaskExact(g, marked, F)
    && Complete(g, marked, F)
    && BelowClosed(g, marked)
    && g.seeds <= marked.Keys
  }

  /** `F` is every edge of the components in `P`, except the edges of `c` from index `k` on. */
  ghost predicate FollowedUpTo(g: Graph, F: set<EdgeId>, P: set<Comp>, c: Comp, k: int) {
    forall e :: e in F <==>
      (e.0 in P && e.0 in g.collector && 0 <= e.1 < |g.collector[e.0].dependencies| && (e.0 != c || e.1 < k))
  }

  /** `F` is every edge of the components in `P`. */
  ghost predicate FollowedAll(g: Graph, F: set<EdgeId>, P: set<Comp>) {
    forall e :: e in F <==> (e.0 in P && e.0 in g.collector && 0 <= e.1 < |g.collector[e.0].dependencies|)
  }

  /**
   * The marks and queue after MarkComponent(d, ifTargetCanBeEnabled, types):
   * nothing changes when the check is asked for and `d` is never active; an
   * already marked `d` gains `types`; otherwise `d` is marked with `types`
   * and queued with its `canBeActive` flag.
   */
  ghost function MarkOutcome(g: Graph, marked: Marks, pending: Pending, d: Comp,
                             ifTargetCanBeEnabled: bool, types: Mask): (Marks, Pending)
  {
    if ifTargetCanBeEnabled && d !in g.active then (marked, pending)
    else if d in marked then (marked[d := marked[d] + types], pending)
    else (marked[d := types], pending + [(d, d in g.active)])
  }

  /** The marks and queue after following the k-th edge of `c`. */
  ghost function FollowOutcome(g: Graph, marked: Marks, pending: Pending, c: Comp, k: int): (Marks, Pending)
    requires c in g.collector && 0 <= k < |g.collector[c].dependencies|
  {
    var dep := Edge(g, c, k);
    if !dep.flags.evenIfThisIsDisabled && c !in g.active then (marked, pending)
    else MarkOutcome(g, marked, pending, dep.target, !dep.flags.evenIfTargetIsDisabled, dep.types)
  }

  lemma KeptByEdgesExtend(g: Graph, F: set<EdgeId>, e: EdgeId, d: Comp, t: DependencyType)
    ensures KeptByEdges(g, F + {e}, d, t) <==>
              KeptByEdges(g, F, d, t) || (EdgeFires(g, e.0, e.1) && Target(g, e) == d && t in Types(g, e))
  {
    if KeptByEdges(g, F + {e}, d, t) {
      var e' :| e' in F + {e} && EdgeFires(g, e'.0, e'.1) && Target(g, e') == d && t in Types(g, e');
      if e' != e {
        assert e' in F;
      }
    }
    if EdgeFires(g, e.0, e.1) && Target(g, e) == d && t in Types(g, e) {
      assert e in F + {e};
    }
    if KeptByEdges(g, F, d, t) {
      var e' :| e' in F && EdgeFires(g, e'.0, e'.1) && Target(g, e') == d && t in Types(g, e');
      assert e' in F + {e};
    }
  }

  /** The three outcomes of following an edge: it does not fire, it adds types to a marked target, or it marks a new one. */
  lemma FollowOutcomeCases(g: Graph, marked: Marks, pending: Pending, c: Comp, k: int)
    requires c in g.collector && 0 <= k < |g.collector[c].dependencies|
    ensures var e := (c, k);
            FollowOutcome(g, marked, pending, c, k) ==
              if !EdgeFires(g, c, k) then (marked, pending)
              else if Target(g, e) in marked then (marked[Target(g, e) := marked[Target(g, e)] + Types(g, e)], pending)
              else (marked[Target(g, e) := Types(g, e)], pending + [(Target(g, e), Target(g, e) in g.active)])
  {
  }

  lemma FollowSkip(g: Graph, marked: Marks, F: set<EdgeId>, e: EdgeId)
    requires MaskExact(g, marked, F) && Complete(g, marked, F) && !EdgeFires(g, e.0, e.1)
    ensures MaskExact(g, marked, F + {e}) && Complete(g, marked, F + {e})
  {
    forall d, t ensures KeptByEdges(g, F + {e}, d, t) <==> KeptByEdges(g, F, d, t) {
      KeptByEdgesExtend(g, F, e, d, t);
    }
    forall e' | e' in F + {e} && EdgeFires(g, e'.0, e'.1) ensures Target(g, e') in marked {
      assert e' in F;
    }
  }

  lemma FollowExisting(g: Graph, marked: Marks, pending: Pending, P: set<Comp>, F: set<EdgeId>, e: EdgeId)
    requires MarkInvariant(g, marked, pending, P, F)
    requires EdgeFires(g, e.0, e.1) && Target(g, e) in marked
    ensures MarkInvariant(g, marked[Target(g, e) := marked[Target(g, e)] + Types(g, e)], pending, P, F + {e})
  {
    var d := Target(g, e);
    var m' := marked[d := marked[d] + Types(g, e)];
    assert m'.Keys == marked.Keys;
    forall d', t | d' in m' ensures t in m'[d'] <==> ReasonF(g, F + {e}, d', t) {
      KeptByEdgesExtend(g, F, e, d', t);
    }
    forall e' | e' in F + {e} && EdgeFires(g, e'.0, e'.1) ensures Target(g, e') in m' {
      if e' != e {
        assert e' in F;
      }
    }
  }

  /** Appending a component that is neither queued nor processed keeps the queue's shape. */
  lemma EnqueueShape(g: Graph, marked: Marks, pending: Pending, P: set<Comp>, d: Comp, types: Mask)
    requires QueueShape(g, marked, pending, P) && d in g.nodes && d !in marked
    ensures QueueShape(g, marked[d := types], pending + [(d, d in g.active)], P)
  {
    var p' := pending + [(d, d in g.active)];
    assert Queued(p') == Queued(pending) + {d} by {
      assert forall i :: 0 <= i < |pending| ==> p'[i] == pending[i];
      assert p'[|pending|].0 == d;
    }
    forall i, k | 0 <= i < k < |p'| ensures p'[i].0 != p'[k].0 {
      if k == |pending| {
        assert p'[i] == pending[i] && pending[i].0 in Queued(pending);
      } else {
        assert p'[i] == pending[i] && p'[k] == pending[k];
      }
    }
    forall i | 0 <= i < |p'| ensures p'[i].0 !in P && p'[i].1 == (p'[i].0 in g.active) {
      if i < |pending| {
        assert p'[i] == pending[i];
      }
    }
  }

  /** A component that is not marked has no reason to be. */
  lemma UnmarkedHasNoReason(g: Graph, marked: Marks, F: set<EdgeId>, d: Comp, t: DependencyType)
    requires Complete(g, marked, F) && g.seeds <= marked.Keys && d !in marked
    ensures !ReasonF(g, F, d, t)
  {
    forall e' | e' in F && EdgeFires(g, e'.0, e'.1) ensures Target(g, e') != d {
      assert Target(g, e') in marked;
    }
  }

  lemma FollowNewMasks(g: Graph, marked: Marks, F: set<EdgeId>, e: EdgeId)
    requires MaskExact(g, marked, F) && Complete(g, marked, F) && g.seeds <= marked.Keys
    requires EdgeFires(g, e.0, e.1) && Target(g, e) !in marked
    ensures MaskExact(g, marked[Target(g, e) := Types(g, e)], F + {e})
    ensures Complete(g, marked[Target(g, e) := Types(g, e)], F + {e})
  {
    var d := Target(g, e);
    var m' := marked[d := Types(g, e)];
    forall d', t | d' in m' ensures t in m'[d'] <==> ReasonF(g, F + {e}, d', t) {
      KeptByEdgesExtend(g, F, e, d', t);
      if d' == d {
        UnmarkedHasNoReason(g, marked, F, d, t);
      }
    }
    forall e' | e' in F + {e} && EdgeFires(g, e'.0, e'.1) ensures Target(g, e') in m' {
      if e' != e {
        assert e' in F;
      }
    }
  }

  lemma FollowNewClosed(g: Graph, marked: Marks, e: EdgeId, types: Mask)
    requires BelowClosed(g, marked) && EdgeFires(g, e.0, e.1) && e.0 in marked
    ensures BelowClosed(g, marked[Target(g, e) := types])
  {
    forall S | Closed(g, S) ensures marked[Target(g, e) := types].Keys <= S {
      assert marked.Keys <= S;
      assert e.0 in S;
    }
  }

  lemma FollowNew(g: Graph, marked: Marks, pending: Pending, P: set<Comp>, F: set<EdgeId>, e: EdgeId)
    requires GraphValid(g) && MarkInvariant(g, marked, pending, P, F)
    requires EdgeFires(g, e.0, e.1) && e.0 in marked && Target(g, e) !in marked
    ensures MarkInvariant(g, marked[Target(g, e) := Types(g, e)],
                          pending + [(Target(g, e), Target(g, e) in g.active)], P, F + {e})
  {
    EnqueueShape(g, marked, pending, P, Target(g, e), Types(g, e));
    FollowNewMasks(g, marked, F, e);
    FollowNewClosed(g, marked, e, Types(g, e));
  }

  /** Following one edge of a processed component keeps the invariant, with that edge counted as followed. */
  lemma FollowEdge(g: Graph, marked: Marks, pending: Pending, P: set<Comp>, F: set<EdgeId>, c: Comp, k: int)
    requires GraphValid(g) && MarkInvariant(g, marked, pending, P, F)
    requires c in P && c in g.collector && 0 <= k < |g.collector[c].dependencies|
    ensures var (m', p') := FollowOutcome(g, marked, pending, c, k);
            MarkInvariant(g, m', p', P, F + {(c, k)})
  {
    var e := (c, k);
    FollowOutcomeCases(g, marked, pending, c, k);
    if !EdgeFires(g, c, k) {
      FollowSkip(g, marked, F, e);
    } else if Target(g, e) in marked {
      FollowExisting(g, marked, pending, P, F, e);
    } else {
      FollowNew(g, marked, pending, P, F, e);
    }
  }

  lemma DequeueQueued(pending: Pending)
    requires pending != [] && forall i, k :: 0 <= i < k < |pending| ==> pending[i].0 != pending[k].0
    ensures Queued(pending[1..]) == Queued(pending) - {pending[0].0}
  {
    var c := pending[0].0;
    forall x | x in Queued(pending) && x != c ensures x in Queued(pending[1..]) {
      var i :| 0 <= i < |pending| && pending[i].0 == x;
      assert pending[1..][i - 1] == pending[i];
    }
    forall x | x in Queued(pending[1..]) ensures x in Queued(pending) && x != c {
      var i :| 0 <= i < |pending[1..]| && pending[1..][i].0 == x;
      assert pending[i + 1] == pending[1..][i];
    }
  }

  /** Taking the head of the queue: it becomes processed and none of its edges are followed yet. */
  lemma Dequeue(g: Graph, marked: Marks, pending: Pending, P: set<Comp>, F: set<EdgeId>)
    requires MarkInvariant(g, marked, pending, P, F) && FollowedAll(g, F, P) && pending != []
    ensures pending[0].0 in g.nodes && pending[0].0 !in P && pending[0].1 == (pending[0].0 in g.active)
    ensures MarkInvariant(g, marked, pending[1..], P + {pending[0].0}, F)
    ensures FollowedUpTo(g, F, P + {pending[0].0}, pending[0].0, 0)
  {
    DequeueQueued(pending);
    assert pending[0].0 in Queued(pending);
    forall i, k | 0 <= i < k < |pending[1..]| ensures pending[1..][i].0 != pending[1..][k].0 {
      assert pending[1..][i] == pending[i + 1] && pending[1..][k] == pending[k + 1];
    }
    forall i | 0 <= i < |pending[1..]| ensures pending[1..][i].0 != pending[0].0 {
      assert pending[1..][i] == pending[i + 1];
    }
  }

  /** Counting the k-th edge of `c` as followed moves the boundary of `FollowedUpTo` one edge on. */
  lemma FollowedNext(g: Graph, F: set<EdgeId>, P: set<Comp>, c: Comp, k: int)
    requires FollowedUpTo(g, F, P, c, k)
    requires c in P && c in g.collector && 0 <= k < |g.collector[c].dependencies|
    ensures FollowedUpTo(g, F + {(c, k)}, P, c, k + 1)
  {
  }

  /** Once every edge of the head has been considered, all edges of the processed components have been followed. */
  lemma FinishComponent(g: Graph, F: set<EdgeId>, P: set<Comp>, c: Comp, k: int)
    requires FollowedUpTo(g, F, P, c, k)
    requires c !in g.collector || k >= |g.collector[c].dependencies|
    ensures FollowedAll(g, F, P)
  {
  }

  lemma ClosedAtEnd(g: Graph, marked: Marks, F: set<EdgeId>)
    requires Complete(g, marked, F) && g.seeds <= marked.Keys && FollowedAll(g, F, marked.Keys)
    ensures Closed(g, marked.Keys)
  {
    forall c, j | c in marked.Keys && EdgeFires(g, c, j) ensures Edge(g, c, j).target in marked.Keys {
      assert (c, j) in F;
    }
  }

  lemma ReasonAtEnd(g: Graph, P: set<Comp>, F: set<EdgeId>, d: Comp, t: DependencyType)
    requires FollowedAll(g, F, P)
    ensures ReasonF(g, F, d, t) <==> Reason(g, P, d, t)
  {
    if KeptByEdges(g, F, d, t) {
      var e :| e in F && EdgeFires(g, e.0, e.1) && Target(g, e) == d && t in Types(g, e);
      assert e.0 in P;
    }
    if KeptBy(g, P, d, t) {
      var c, j :| c in P && EdgeFires(g, c, j) && Edge(g, c, j).target == d && t in Edge(g, c, j).types;
      assert (c, j) in F;
    }
  }

  /** An empty queue means the marked set is the least closed set and each mask holds exactly its reasons. */
  lemma MarkingDone(g: Graph, marked: Marks, P: set<Comp>, F: set<EdgeId>)
    requires MarkInvariant(g, marked, [], P, F) && FollowedAll(g, F, P)
    ensures LeastClosed(g, marked.Keys)
    ensures forall d, t :: d in marked ==> (t in marked[d] <==> Reason(g, marked.Keys, d, t))
  {
    assert Queued([]) == {};
    assert marked.Keys == P;
    ClosedAtEnd(g, marked, F);
    forall d, t | d in marked ensures t in marked[d] <==> Reason(g, marked.Keys, d, t) {
      ReasonAtEnd(g, P, F, d, t);
    }
  }

  /** While seeding, every marked component is an entry point marked for Normal only. */
  ghost predicate SeedState(g: Graph, marked: Marks, pending: Pending) {
    && QueueShape(g, marked, pending, {})
    && (forall d :: d in marked ==> marked[d] == {Normal} && d in g.seeds)
  }

  /** Marking a candidate entry point keeps the seeding state, and marks it when it can be active. */
  lemma SeedStep(g: Graph, marked: Marks, pending: Pending, d: Comp)
    requires SeedState(g, marked, pending) && d in g.nodes
    requires d in g.active ==> d in g.seeds
    ensures var (m', p') := MarkOutcome(g, marked, pending, d, true, {Normal});
            && SeedState(g, m', p')
            && marked.Keys <= m'.Keys
            && (d in g.active ==> d in m')
  {
    if d in g.active && d !in marked {
      EnqueueShape(g, marked, pending, {}, d, {Normal});
    }
  }

  /** With every entry point marked, the seeding state is the propagation invariant with nothing processed. */
  lemma SeedingDone(g: Graph, marked: Marks, pending: Pending)
    requires SeedState(g, marked, pending) && g.seeds <= marked.Keys
    ensures MarkInvariant(g, marked, pending, {}, {}) && FollowedAll(g, {}, {})
  {
    forall S | Closed(g, S) ensures marked.Keys <= S {
      forall d | d in marked ensures d in S {
        assert d in g.seeds;
      }
    }
  }
}
