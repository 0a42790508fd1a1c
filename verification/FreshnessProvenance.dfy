/** Which anchors are in force: the latest provenance a node or an edge has, which a revision without anchors inherits
    and one with anchors replaces; and that a revision without anchors leaves the node's freshness alone. */
module FreshnessProvenance {
  import opened Freshness
  import opened MemoryEffects
  import opened MemoryGraph
  import opened MemoryHistory
  import opened Prelude

  predicate Belongs(a: Anchor, entity: Entity, id: string) {
    a.entity == entity && a.id == id
  }

  // ---- the latest provenance -------------------------------------------------------------

  /** The anchor is stored for the entity, at the greatest revision up to `revision` that has any. */
  ghost predicate Latest(anchors: seq<Anchor>, entity: Entity, id: string, revision: nat, a: Anchor) {
    && a in anchors && Belongs(a, entity, id) && a.revision <= revision
    && forall b :: b in anchors && Belongs(b, entity, id) && b.revision <= revision ==> b.revision <= a.revision
  }

  lemma {:induction false} LatestIsGreatest(anchors: seq<Anchor>, entity: Entity, id: string, below: nat)
    ensures var latest := LatestBefore(anchors, entity, id, below);
            && (latest.None? <==> forall a :: a in anchors && Belongs(a, entity, id) ==> a.revision >= below)
            && (latest.Some? ==>
                  && latest.value < below
                  && (exists a :: a in anchors && Belongs(a, entity, id) && a.revision == latest.value)
                  && forall a :: a in anchors && Belongs(a, entity, id) && a.revision < below
                                 ==> a.revision <= latest.value)
  {
    if anchors != [] {
      var rest, first := anchors[1..], anchors[0];
      LatestIsGreatest(rest, entity, id, below);
      assert forall a :: a in anchors <==> a == first || a in rest;
      var before := LatestBefore(rest, entity, id, below);
      if before.Some? {
        var a :| a in rest && Belongs(a, entity, id) && a.revision == before.value;
        assert a in anchors;
      }
      assert first in anchors;
    }
  }

  /** An anchor is in force if and only if it is stored for the entity at the greatest revision, not above the given
      one, that has any. */
  lemma InForceIff(g: Graph, entity: Entity, id: string, revision: nat, a: Anchor)
    ensures a in AnchorsFor(g, entity, id, revision) <==> Latest(g.anchors, entity, id, revision, a)
  {
    LatestIsGreatest(g.anchors, entity, id, revision);
    var own := AnchorsAt(g.anchors, entity, id, revision);
    if own != [] {
      assert own[0] in own;
    }
  }

  /** The provenance of a node and of an edge is in force at the revision its row has now. */
  lemma CurrentProvenance(g: Graph, id: string, a: Anchor)
    ensures a in AnchorsInForce(g, id) <==> id in g.nodes && Latest(g.anchors, NodeEntity, id, g.nodes[id].revision, a)
    ensures id in g.edges ==> (a in EdgeAnchors(g, id) <==> Latest(g.anchors, EdgeEntity, id, g.edges[id].revision, a))
  {
    if id in g.nodes {
      InForceIff(g, NodeEntity, id, g.nodes[id].revision, a);
    }
    if id in g.edges {
      InForceIff(g, EdgeEntity, id, g.edges[id].revision, a);
    }
  }

  /** Something is in force as soon as the entity has an anchor at or below the revision. */
  lemma SomethingInForce(g: Graph, entity: Entity, id: string, revision: nat)
    ensures AnchorsFor(g, entity, id, revision) == []
            <==> forall a :: a in g.anchors && Belongs(a, entity, id) ==> a.revision > revision
  {
    LatestIsGreatest(g.anchors, entity, id, revision);
    var own, latest := AnchorsAt(g.anchors, entity, id, revision), LatestBefore(g.anchors, entity, id, revision);
    if own != [] {
      assert own[0] in own;
    } else if latest.Some? {
      var a :| a in g.anchors && Belongs(a, entity, id) && a.revision == latest.value;
      assert a in AnchorsAt(g.anchors, entity, id, latest.value);
    } else {
      forall a | a in g.anchors && Belongs(a, entity, id)
        ensures a.revision > revision
      {
        assert a.revision == revision ==> a in own;
      }
    }
  }

  lemma {:induction false} AnchorsAtCount(anchors: seq<Anchor>, entity: Entity, id: string, revision: nat, a: Anchor)
    ensures multiset(AnchorsAt(anchors, entity, id, revision))[a]
            == if Belongs(a, entity, id) && a.revision == revision then multiset(anchors)[a] else 0
  {
    if anchors != [] {
      AnchorsAtCount(anchors[1..], entity, id, revision, a);
      assert anchors == [anchors[0]] + anchors[1..];
    }
  }

  /** Every anchor is in force as often as it is stored. */
  lemma InForceCount(g: Graph, entity: Entity, id: string, revision: nat, a: Anchor)
    requires Latest(g.anchors, entity, id, revision, a)
    ensures multiset(AnchorsFor(g, entity, id, revision))[a] == multiset(g.anchors)[a]
  {
    LatestIsGreatest(g.anchors, entity, id, revision);
    AnchorsAtCount(g.anchors, entity, id, a.revision, a);
    var own := AnchorsAt(g.anchors, entity, id, revision);
    if own != [] {
      assert own[0] in own;
    } else {
      assert a.revision < revision by {
        assert a.revision == revision ==> a in own;
      }
    }
  }

  // ---- a revision inherits or replaces ---------------------------------------------------

  lemma {:induction false} NoneAt(anchors: seq<Anchor>, entity: Entity, id: string, revision: nat)
    requires forall a :: a in anchors && Belongs(a, entity, id) ==> a.revision != revision
    ensures AnchorsAt(anchors, entity, id, revision) == []
  {
    if anchors != [] {
      assert anchors[0] in anchors;
      NoneAt(anchors[1..], entity, id, revision);
    }
  }

  lemma {:induction false} LatestOfNext(anchors: seq<Anchor>, entity: Entity, id: string, revision: nat)
    ensures LatestBefore(anchors, entity, id, revision + 1)
            == if AnchorsAt(anchors, entity, id, revision) != [] then Some(revision)
               else LatestBefore(anchors, entity, id, revision)
  {
    if anchors != [] {
      LatestOfNext(anchors[1..], entity, id, revision);
      LatestBelow(anchors[1..], entity, id, revision);
    }
  }

  lemma {:induction false} LatestBelow(anchors: seq<Anchor>, entity: Entity, id: string, below: nat)
    ensures var latest := LatestBefore(anchors, entity, id, below);
            latest.Some? ==> latest.value < below
  {
    if anchors != [] {
      LatestBelow(anchors[1..], entity, id, below);
    }
  }

  /** With no anchor of its own, the next revision has those of the one before. */
  lemma NextInherits(g: Graph, r: Graph, entity: Entity, id: string, revision: nat)
    requires r.anchors == g.anchors
    requires forall a :: a in g.anchors && Belongs(a, entity, id) ==> a.revision <= revision
    ensures AnchorsFor(r, entity, id, revision + 1) == AnchorsFor(g, entity, id, revision)
  {
    NoneAt(g.anchors, entity, id, revision + 1);
    LatestOfNext(g.anchors, entity, id, revision);
  }

  lemma {:induction false} NoneBefore(anchors: seq<Anchor>, n: nat, entity: Entity, id: string, revision: nat)
    requires n <= |anchors|
    requires forall i :: 0 <= i < n ==> !(Belongs(anchors[i], entity, id) && anchors[i].revision == revision)
    ensures AnchorsAt(anchors, entity, id, revision) == AnchorsAt(anchors[n..], entity, id, revision)
    decreases n
  {
    if n == 0 {
      assert anchors[0..] == anchors;
    } else {
      NoneBefore(anchors[1..], n - 1, entity, id, revision);
      assert anchors[1..][n - 1..] == anchors[n..];
    }
  }

  lemma {:induction false} AllAtRevision(anchors: seq<Anchor>, entity: Entity, id: string, revision: nat)
    requires forall i :: 0 <= i < |anchors| ==> Belongs(anchors[i], entity, id) && anchors[i].revision == revision
    ensures AnchorsAt(anchors, entity, id, revision) == anchors
  {
    if anchors != [] {
      AllAtRevision(anchors[1..], entity, id, revision);
      assert anchors == [anchors[0]] + anchors[1..];
    }
  }

  /** With anchors of its own, the next revision has exactly those. */
  lemma NextReplaces(g: Graph, r: Graph, entity: Entity, id: string, revision: nat, raws: seq<AnchorInput>)
    requires AnchorsAdded(g, r, entity, id, revision + 1, raws) && raws != []
    requires forall a :: a in g.anchors && Belongs(a, entity, id) ==> a.revision <= revision
    ensures AnchorsFor(r, entity, id, revision + 1) == r.anchors[|g.anchors|..]
  {
    var added := r.anchors[|g.anchors|..];
    forall i | 0 <= i < |g.anchors|
      ensures !(Belongs(r.anchors[i], entity, id) && r.anchors[i].revision == revision + 1)
    {
      assert r.anchors[i] == g.anchors[i] && g.anchors[i] in g.anchors;
    }
    NoneBefore(r.anchors, |g.anchors|, entity, id, revision + 1);
    forall i | 0 <= i < |added|
      ensures Belongs(added[i], entity, id) && added[i].revision == revision + 1
    {
      assert StoredAs(r.anchors[|g.anchors| + i], entity, id, revision + 1, raws[i]);
    }
    AllAtRevision(added, entity, id, revision + 1);
  }

  // ---- updates of a node -----------------------------------------------------------------

  lemma NoLaterAnchors(g: Graph, id: NodeId)
    requires PinsHold(g)
    ensures id in g.nodes ==>
              forall a :: a in g.anchors && Belongs(a, NodeEntity, id) ==> a.revision <= g.nodes[id].revision
  {
    forall a | a in g.anchors && Belongs(a, NodeEntity, id) && id in g.nodes
      ensures a.revision <= g.nodes[id].revision
    {
      var i :| 0 <= i < |g.anchors| && g.anchors[i] == a;
      assert PinHolds(g, g.anchors[i]);
    }
  }

  /** After an update with anchors exactly those are in force. */
  lemma NewAnchorsTakeOver(g: Graph, op: Operation, at: nat)
    requires Valid(g) && op.UpdateNode? && op.anchors != [] && Apply(g, op, at).Ok?
    ensures g.anchors <= Apply(g, op, at).value.anchors
    ensures AnchorsInForce(Apply(g, op, at).value, Strip(op.id)) == Apply(g, op, at).value.anchors[|g.anchors|..]
  {
    UpdateNodeIsExact(g, op, at);
    Replaced(g, Apply(g, op, at).value, Strip(op.id), op.anchors);
  }

  lemma Replaced(g: Graph, r: Graph, id: NodeId, raws: seq<AnchorInput>)
    requires PinsHold(g) && id in g.nodes && id in r.nodes && r.nodes[id].revision == g.nodes[id].revision + 1
    requires AnchorsAdded(g, r, NodeEntity, id, r.nodes[id].revision, raws) && raws != []
    ensures AnchorsInForce(r, id) == r.anchors[|g.anchors|..]
  {
    NoLaterAnchors(g, id);
    NextReplaces(g, r, NodeEntity, id, g.nodes[id].revision, raws);
  }

  /** From `g` to `r` only the revision of `id` may differ, and every node and edge has the same anchors in force. */
  ghost predicate SameProvenance(g: Graph, r: Graph, id: NodeId) {
    && r.nodes.Keys == g.nodes.Keys && r.edges == g.edges
    && (forall x :: x in g.nodes && x != id ==> r.nodes[x].revision == g.nodes[x].revision)
    && forall x :: AnchorsInForce(r, x) == AnchorsInForce(g, x)
  }

  lemma {:induction false} StatusUnchanged(g: Graph, r: Graph, id: NodeId, provider: Provider, a: Anchor,
                                           stack: set<NodeId>, cache: Cache)
    requires SameProvenance(g, r, id) && id in stack
    ensures AnchorStatusCached(r, provider, a, stack, cache) == AnchorStatusCached(g, provider, a, stack, cache)
    decreases g.nodes.Keys - stack, 0, 0
  {
    if a.kind.MemoryAnchor? && a.sourceRef.Some? && a.sourceRef.value !in stack && Follows(g, a) {
      var ref := a.sourceRef.value;
      assert ref in g.nodes.Keys - stack && ref !in g.nodes.Keys - (stack + {ref});
      NodeUnchanged(g, r, id, provider, ref, stack + {ref}, cache);
    }
  }

  lemma {:induction false} StatusesUnchanged(g: Graph, r: Graph, id: NodeId, provider: Provider, anchors: seq<Anchor>,
                                             stack: set<NodeId>, cache: Cache)
    requires SameProvenance(g, r, id) && id in stack
    ensures AnchorStatusesCached(r, provider, anchors, stack, cache)
            == AnchorStatusesCached(g, provider, anchors, stack, cache)
    decreases g.nodes.Keys - stack, 1, |anchors|
  {
    if anchors != [] {
      StatusUnchanged(g, r, id, provider, anchors[0], stack, cache);
      StatusesUnchanged(g, r, id, provider, anchors[1..], stack,
                        AnchorStatusCached(g, provider, anchors[0], stack, cache).1);
    }
  }

  lemma {:induction false} NodeUnchanged(g: Graph, r: Graph, id: NodeId, provider: Provider, x: NodeId,
                                         stack: set<NodeId>, cache: Cache)
    requires SameProvenance(g, r, id) && id in stack
    ensures EvaluateCached(r, provider, x, stack, cache) == EvaluateCached(g, provider, x, stack, cache)
    decreases g.nodes.Keys - stack, 2, 0
  {
    if x !in cache {
      StatusesUnchanged(g, r, id, provider, AnchorsInForce(g, x), stack, cache);
    }
  }

  lemma Inherited(g: Graph, r: Graph, id: NodeId)
    requires PinsHold(g) && id in g.nodes && id in r.nodes && r.nodes == g.nodes[id := r.nodes[id]]
    requires r.nodes[id].revision == g.nodes[id].revision + 1 && r.edges == g.edges && r.anchors == g.anchors
    ensures SameProvenance(g, r, id)
  {
    NoLaterAnchors(g, id);
    NextInherits(g, r, NodeEntity, id, g.nodes[id].revision);
  }

  /** After an update without anchors every node has the anchors in force it had. */
  lemma UpdateKeepsProvenance(g: Graph, op: Operation, at: nat)
    requires Valid(g) && op.UpdateNode? && op.anchors == [] && Apply(g, op, at).Ok?
    ensures SameProvenance(g, Apply(g, op, at).value, Strip(op.id))
  {
    UpdateNodeIsExact(g, op, at);
    var r := Apply(g, op, at).value;
    assert r.anchors == g.anchors;
    Inherited(g, r, Strip(op.id));
  }

  /** A revision without anchors, such as one that only retags a node, leaves its projected record as it was, under
      every provider. */
  lemma RetaggingKeepsFreshness(g: Graph, op: Operation, at: nat, provider: Provider)
    requires Valid(g) && op.UpdateNode? && op.anchors == [] && Apply(g, op, at).Ok?
    ensures var id, r := Strip(op.id), Apply(g, op, at).value;
            Project(r, provider, [id], map[]) == Project(g, provider, [id], map[])
  {
    var id, r := Strip(op.id), Apply(g, op, at).value;
    UpdateKeepsProvenance(g, op, at);
    NodeUnchanged(g, r, id, provider, id, {id}, map[]);
    assert [id][1..] == [];
  }
}
