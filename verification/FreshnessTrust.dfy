/** When the trust a projection reports means what it says: with one shared cache, nodes and edges are trusted exactly
    when no trouble can be reached from them, if and only if every node that names an older revision of a node
    depending on it is in trouble anyway. */
module FreshnessTrust {
  import opened Freshness
  import opened FreshnessOrder
  import opened FreshnessProofs
  import opened MemoryGraph
  import opened Prelude

  /** Every node that names an older revision of a node depending on it is in trouble anyway. */
  ghost predicate Harmless(g: Graph, provider: Provider) {
    forall x, u :: NamesBack(g, x, u) ==> InTrouble(g, provider, u)
  }

  // ---- trouble along paths ---------------------------------------------------------------

  lemma TroubleWidens(g: Graph, provider: Provider, p: seq<NodeId>, fewer: set<NodeId>, more: set<NodeId>)
    requires Trouble(g, provider, p, fewer) && fewer <= more + NodesOf(p)
    ensures Trouble(g, provider, p, more)
  {
    if NamesAny(g, Last(p), fewer + NodesOf(p)) {
      var i :| 0 <= i < |AnchorsInForce(g, Last(p))|
               && NamesOneOf(AnchorsInForce(g, Last(p))[i], fewer + NodesOf(p));
      assert NamesOneOf(AnchorsInForce(g, Last(p))[i], more + NodesOf(p));
    }
  }

  /** Whatever depends on a node in trouble is in trouble. */
  lemma TroubleSpreads(g: Graph, provider: Provider, u: NodeId, v: NodeId)
    requires Depends(g, u, v) && InTrouble(g, provider, v)
    ensures InTrouble(g, provider, u)
  {
    var p :| p != [] && p[0] == v && Trouble(g, provider, p, {});
    PathCons(g, u, p);
    var q := [u] + p;
    if NamesAny(g, Last(p), {} + NodesOf(p)) {
      var i :| 0 <= i < |AnchorsInForce(g, Last(p))| && NamesOneOf(AnchorsInForce(g, Last(p))[i], {} + NodesOf(p));
      assert NamesOneOf(AnchorsInForce(g, Last(q))[i], {} + NodesOf(q));
    }
    assert Trouble(g, provider, q, {}) && q[0] == u;
  }

  lemma {:induction false} TroubleAlongPath(g: Graph, provider: Provider, p: seq<NodeId>)
    requires IsPath(g, p) && InTrouble(g, provider, Last(p))
    ensures InTrouble(g, provider, p[0])
    decreases |p|
  {
    if |p| > 1 {
      PathTail(g, p);
      TroubleAlongPath(g, provider, p[1..]);
      TroubleSpreads(g, provider, p[0], p[1]);
    }
  }

  lemma {:induction false} PathsJoin(g: Graph, p: seq<NodeId>, q: seq<NodeId>)
    requires IsPath(g, p) && IsPath(g, q) && Depends(g, Last(p), q[0])
    ensures IsPath(g, p + q) && (p + q)[0] == p[0] && Last(p + q) == Last(q)
  {
    var all := p + q;
    forall i | 0 <= i < |all| - 1
      ensures Depends(g, all[i], all[i + 1])
    {
      if i < |p| - 1 {
        assert Depends(g, p[i], p[i + 1]);
      } else if i >= |p| {
        assert Depends(g, q[i - |p|], q[i - |p| + 1]);
      }
    }
  }

  /** A dependency cycle through `id` that leaves it is trouble. */
  lemma CycleIsTrouble(g: Graph, provider: Provider, p: seq<NodeId>, y: NodeId)
    requires IsPath(g, p) && Depends(g, Last(p), y) && Reaches(g, y, p[0])
    ensures InTrouble(g, provider, p[0])
  {
    var q :| IsPath(g, q) && q[0] == y && Last(q) == p[0];
    PathsJoin(g, p, q);
    var all := p + q;
    var next := all[1];
    assert Depends(g, all[0], next) && Last(all) == all[0];
    var i :| 0 <= i < |AnchorsInForce(g, all[0])| && DependsAt(g, AnchorsInForce(g, all[0])[i], next);
    assert next in {} + NodesOf(all);
    assert NamesOneOf(AnchorsInForce(g, Last(all))[i], {} + NodesOf(all));
    assert Trouble(g, provider, all, {});
  }

  // ---- the walk under any stack ----------------------------------------------------------

  /** On the way back to the stack a walk meets either trouble or a back reference, and those are harmless. */
  lemma BackToStackIsTrouble(g: Graph, provider: Provider, p: seq<NodeId>, stack: set<NodeId>, i: nat)
    requires Harmless(g, provider) && IsPath(g, p) && Ancestors(g, stack, p[0]) && i < |AnchorsInForce(g, Last(p))|
    requires NamesOneOf(AnchorsInForce(g, Last(p))[i], stack)
    requires AnchorsInForce(g, Last(p))[i].sourceRef.value !in NodesOf(p)
    ensures InTrouble(g, provider, p[0])
  {
    var a := AnchorsInForce(g, Last(p))[i];
    var y, w := a.sourceRef.value, Last(p);
    assert Reaches(g, y, p[0]);
    if Follows(g, a) {
      assert DependsAt(g, AnchorsInForce(g, w)[i], y);
      CycleIsTrouble(g, provider, p, y);
    } else {
      var q :| IsPath(g, q) && q[0] == y && Last(q) == p[0];
      ReachesAlong(g, q, p);
      assert OutdatedAt(g, AnchorsInForce(g, w)[i], y);
      assert NamesBack(g, y, w);
      TroubleAlongPath(g, provider, p);
    }
  }

  lemma ReachesAlong(g: Graph, q: seq<NodeId>, p: seq<NodeId>)
    requires IsPath(g, q) && IsPath(g, p) && Last(q) == p[0]
    ensures Reaches(g, q[0], Last(p))
  {
    if |p| == 1 {
      assert IsPath(g, q) && Last(q) == Last(p);
    } else {
      PathTail(g, p);
      PathsJoin(g, q, p[1..]);
    }
  }

  /** Under any stack of nodes that depend on it, a node is trusted exactly when it is not in trouble. */
  lemma TrustIgnoresStack(g: Graph, provider: Provider, id: NodeId, stack: set<NodeId>)
    requires Harmless(g, provider) && id in stack && Ancestors(g, stack, id)
    ensures Good(Evaluate(g, provider, id, stack).grade) <==> !InTrouble(g, provider, id)
  {
    if InTrouble(g, provider, id) {
      var p :| p != [] && p[0] == id && Trouble(g, provider, p, {});
      TroubleWidens(g, provider, p, {}, stack);
      TroubleGivesBadGrade(g, provider, p, stack);
    }
    if !Good(Evaluate(g, provider, id, stack).grade) {
      var p := BadGradeHasTrouble(g, provider, id, stack);
      if !HasBadAnchor(g, provider, Last(p)) && !NamesAny(g, Last(p), {} + NodesOf(p)) {
        var i :| 0 <= i < |AnchorsInForce(g, Last(p))|
                 && NamesOneOf(AnchorsInForce(g, Last(p))[i], stack + NodesOf(p));
        assert !NamesOneOf(AnchorsInForce(g, Last(p))[i], {} + NodesOf(p));
        BackToStackIsTrouble(g, provider, p, stack, i);
      } else {
        assert Trouble(g, provider, p, {});
      }
    }
  }

  // ---- the shared cache ------------------------------------------------------------------

  ghost predicate CacheTrusts(g: Graph, provider: Provider, cache: Cache) {
    forall id :: id in cache ==> cache[id].id == id && (Good(cache[id].grade) <==> !InTrouble(g, provider, id))
  }

  /** Everything on the stack depends on what the anchor follows. */
  ghost predicate Leads(g: Graph, a: Anchor, stack: set<NodeId>) {
    Follows(g, a) ==> Ancestors(g, stack, a.sourceRef.value)
  }

  lemma {:induction false} StatusTrusts(g: Graph, provider: Provider, a: Anchor, stack: set<NodeId>, cache: Cache)
    requires Harmless(g, provider) && CacheTrusts(g, provider, cache) && Leads(g, a, stack)
    ensures var (s, cache1) := AnchorStatusCached(g, provider, a, stack, cache);
            && (Good(s.grade) <==> Good(AnchorStatus(g, provider, a, stack).grade))
            && CacheTrusts(g, provider, cache1)
    decreases g.nodes.Keys - stack, 0, 0
  {
    if a.kind.MemoryAnchor? && a.sourceRef.Some? && a.sourceRef.value !in stack && Follows(g, a) {
      var ref := a.sourceRef.value;
      ReachesSelf(g, ref);
      assert ref in g.nodes.Keys - stack && ref !in g.nodes.Keys - (stack + {ref});
      NodeTrusts(g, provider, ref, stack + {ref}, cache);
      TrustIgnoresStack(g, provider, ref, stack + {ref});
    }
  }

  lemma {:induction false} StatusesTrust(g: Graph, provider: Provider, anchors: seq<Anchor>, stack: set<NodeId>,
                                         cache: Cache)
    requires Harmless(g, provider) && CacheTrusts(g, provider, cache)
    requires forall a :: a in anchors ==> Leads(g, a, stack)
    ensures var (ss, cache1) := AnchorStatusesCached(g, provider, anchors, stack, cache);
            && CacheTrusts(g, provider, cache1)
            && forall i :: 0 <= i < |anchors| ==>
                             (Good(ss[i].grade) <==> Good(AnchorStatus(g, provider, anchors[i], stack).grade))
    decreases g.nodes.Keys - stack, 1, |anchors|
  {
    if anchors != [] {
      assert anchors[0] in anchors;
      StatusTrusts(g, provider, anchors[0], stack, cache);
      StatusesTrust(g, provider, anchors[1..], stack, AnchorStatusCached(g, provider, anchors[0], stack, cache).1);
    }
  }

  lemma {:induction false} NodeTrusts(g: Graph, provider: Provider, id: NodeId, stack: set<NodeId>, cache: Cache)
    requires Harmless(g, provider) && CacheTrusts(g, provider, cache) && id in stack && Ancestors(g, stack, id)
    ensures var (out, cache1) := EvaluateCached(g, provider, id, stack, cache);
            out.id == id && (Good(out.grade) <==> !InTrouble(g, provider, id)) && CacheTrusts(g, provider, cache1)
    decreases g.nodes.Keys - stack, 2, 0
  {
    if id !in cache {
      AnchorsLead(g, id, stack);
      StatusesTrust(g, provider, AnchorsInForce(g, id), stack, cache);
      SourcesTrust(g, provider, id, stack, AnchorStatusesCached(g, provider, AnchorsInForce(g, id), stack, cache).0);
      TrustIgnoresStack(g, provider, id, stack);
    }
  }

  lemma AnchorsLead(g: Graph, id: NodeId, stack: set<NodeId>)
    requires Ancestors(g, stack, id)
    ensures forall a :: a in AnchorsInForce(g, id) ==> Leads(g, a, stack)
  {
    var anchors := AnchorsInForce(g, id);
    forall a | a in anchors && Follows(g, a)
      ensures Ancestors(g, stack, a.sourceRef.value)
    {
      var i :| 0 <= i < |anchors| && anchors[i] == a;
      assert DependsAt(g, anchors[i], a.sourceRef.value);
      AncestorsStep(g, stack, id, a.sourceRef.value);
    }
  }

  /** Statuses trusted like those of the walk without a cache combine to a grade trusted like its grade. */
  lemma SourcesTrust(g: Graph, provider: Provider, id: NodeId, stack: set<NodeId>, sources: seq<Status>)
    requires |sources| == |AnchorsInForce(g, id)|
    requires forall i :: 0 <= i < |sources| ==> sources[i].grade != Unbound
    requires forall i :: 0 <= i < |sources| ==>
               (Good(sources[i].grade) <==> Good(AnchorStatus(g, provider, AnchorsInForce(g, id)[i], stack).grade))
    ensures Good(Combine(Grades(sources))) <==> Good(Evaluate(g, provider, id, stack).grade)
  {
    GradeOfSources(sources);
    GradeOfStatuses(g, provider, id, stack);
  }

  lemma {:induction false} ProjectionTrusts(g: Graph, provider: Provider, ids: seq<NodeId>, cache: Cache)
    requires Harmless(g, provider) && CacheTrusts(g, provider, cache)
    ensures var (records, cache1) := Project(g, provider, ids, cache);
            && CacheTrusts(g, provider, cache1)
            && forall i :: 0 <= i < |ids| ==>
                             records[i].id == ids[i] && (Good(records[i].grade) <==> !InTrouble(g, provider, ids[i]))
    decreases |ids|
  {
    if ids != [] {
      ReachesSelf(g, ids[0]);
      NodeTrusts(g, provider, ids[0], {ids[0]}, cache);
      ProjectionTrusts(g, provider, ids[1..], EvaluateCached(g, provider, ids[0], {ids[0]}, cache).1);
    }
  }

  // ---- edges -----------------------------------------------------------------------------

  /** An anchor of the edge is bad, or follows a node in trouble. */
  ghost predicate EdgeInTrouble(g: Graph, provider: Provider, id: EdgeId)
    requires id in g.edges
  {
    exists i :: 0 <= i < |EdgeAnchors(g, id)| && AnchorInTrouble(g, provider, EdgeAnchors(g, id)[i])
  }

  ghost predicate AnchorInTrouble(g: Graph, provider: Provider, a: Anchor) {
    || BadAnchor(g, provider, a)
    || (a.sourceRef.Some? && DependsAt(g, a, a.sourceRef.value) && InTrouble(g, provider, a.sourceRef.value))
  }

  /** With an empty stack an anchor is trusted exactly when it is sound and what it follows is not in trouble. */
  lemma AnchorTrusts(g: Graph, provider: Provider, a: Anchor)
    requires Harmless(g, provider)
    ensures Good(AnchorStatus(g, provider, a, {}).grade) <==> !AnchorInTrouble(g, provider, a)
  {
    GradeOfStatus(g, provider, a, {});
    if Follows(g, a) {
      var ref := a.sourceRef.value;
      assert {} + {ref} == {ref};
      ReachesSelf(g, ref);
      TrustIgnoresStack(g, provider, ref, {ref});
    }
  }

  /** The projected node is in trouble; a node outside the projection is not. */
  ghost predicate EndInTrouble(g: Graph, provider: Provider, nodes: seq<Evaluated>, id: NodeId) {
    (exists i :: 0 <= i < |nodes| && nodes[i].id == id) && InTrouble(g, provider, id)
  }

  lemma {:induction false} EndpointTrusts(g: Graph, provider: Provider, nodes: seq<Evaluated>, id: NodeId)
    requires forall i :: 0 <= i < |nodes| ==> (Good(nodes[i].grade) <==> !InTrouble(g, provider, nodes[i].id))
    ensures Good(EndpointGrade(nodes, id)) <==> !EndInTrouble(g, provider, nodes, id)
    decreases |nodes|
  {
    if nodes != [] {
      var n := |nodes| - 1;
      if nodes[n].id != id {
        EndpointTrusts(g, provider, nodes[..n], id);
        assert (exists i :: 0 <= i < |nodes| && nodes[i].id == id)
               <==> exists i :: 0 <= i < n && nodes[..n][i].id == id;
      }
    }
  }

  /** What the trust of an edge should say: of its own anchors when it has any, else of its two ends. */
  ghost predicate EdgeUntrusted(g: Graph, provider: Provider, nodes: seq<Evaluated>, id: EdgeId)
    requires id in g.edges
  {
    if EdgeAnchors(g, id) != [] then EdgeInTrouble(g, provider, id)
    else EndInTrouble(g, provider, nodes, g.edges[id].source) || EndInTrouble(g, provider, nodes, g.edges[id].target)
  }

  lemma EdgeTrusts(g: Graph, provider: Provider, id: EdgeId, nodes: seq<Evaluated>, cache: Cache)
    requires Harmless(g, provider) && CacheTrusts(g, provider, cache) && id in g.edges
    requires forall i :: 0 <= i < |nodes| ==> (Good(nodes[i].grade) <==> !InTrouble(g, provider, nodes[i].id))
    ensures var (out, cache1) := EvaluateEdge(g, provider, id, nodes, cache);
            && (Good(out.grade) <==> !EdgeUntrusted(g, provider, nodes, id))
            && CacheTrusts(g, provider, cache1)
  {
    var anchors := EdgeAnchors(g, id);
    StatusesTrust(g, provider, anchors, {}, cache);
    var sources := AnchorStatusesCached(g, provider, anchors, {}, cache).0;
    GradeOfSources(sources);
    forall i | 0 <= i < |anchors|
      ensures Good(sources[i].grade) <==> !AnchorInTrouble(g, provider, anchors[i])
    {
      AnchorTrusts(g, provider, anchors[i]);
    }
    EndpointTrusts(g, provider, nodes, g.edges[id].source);
    EndpointTrusts(g, provider, nodes, g.edges[id].target);
  }

  lemma {:induction false} EdgesTrust(g: Graph, provider: Provider, ids: seq<EdgeId>, nodes: seq<Evaluated>,
                                      cache: Cache)
    requires Harmless(g, provider) && CacheTrusts(g, provider, cache) && forall id :: id in ids ==> id in g.edges
    requires forall i :: 0 <= i < |nodes| ==> (Good(nodes[i].grade) <==> !InTrouble(g, provider, nodes[i].id))
    ensures var records := ProjectEdges(g, provider, ids, nodes, cache).0;
            forall i :: 0 <= i < |ids| ==> (Good(records[i].grade) <==> !EdgeUntrusted(g, provider, nodes, ids[i]))
    decreases |ids|
  {
    if ids != [] {
      EdgeTrusts(g, provider, ids[0], nodes, cache);
      EdgesTrust(g, provider, ids[1..], nodes, EvaluateEdge(g, provider, ids[0], nodes, cache).1);
    }
  }

  // ---- exactly when ----------------------------------------------------------------------

  /** Every node and every edge of the projection is trusted exactly when it should be. */
  ghost predicate TrustExact(g: Graph, provider: Provider, ids: seq<NodeId>, edges: seq<EdgeId>)
    requires forall id :: id in edges ==> id in g.edges
  {
    var (nodes, cache) := Project(g, provider, ids, map[]);
    var relations := ProjectEdges(g, provider, edges, nodes, cache).0;
    && (forall i :: 0 <= i < |ids| ==> (Good(nodes[i].grade) <==> !InTrouble(g, provider, ids[i])))
    && (forall i :: 0 <= i < |edges| ==>
          (Good(relations[i].grade) <==> !EdgeUntrusted(g, provider, nodes, edges[i])))
  }

  lemma HarmlessIsExact(g: Graph, provider: Provider, ids: seq<NodeId>, edges: seq<EdgeId>)
    requires Harmless(g, provider) && forall id :: id in edges ==> id in g.edges
    ensures TrustExact(g, provider, ids, edges)
  {
    ProjectionTrusts(g, provider, ids, map[]);
    var (nodes, cache) := Project(g, provider, ids, map[]);
    EdgesTrust(g, provider, edges, nodes, cache);
  }

  lemma BackReferenceMisleads(g: Graph, provider: Provider, x: NodeId, u: NodeId)
    requires NamesBack(g, x, u) && !InTrouble(g, provider, u)
    ensures !TrustExact(g, provider, [x, u], [])
  {
    BackReferenceSpoils(g, provider, x, u);
    assert [x, u][1] == u;
  }

  /** On every store, cyclic or not, and with the cache shared over the whole projection: every node and every edge
      is trusted exactly when no trouble can be reached from it, for all selections in all orders, if and only if
      every node that names an older revision of a node depending on it is in trouble anyway. */
  lemma TrustIsExactIff(g: Graph, provider: Provider)
    ensures Harmless(g, provider)
            <==> forall ids, edges: seq<EdgeId> :: (forall id :: id in edges ==> id in g.edges)
                                                   ==> TrustExact(g, provider, ids, edges)
    ensures NoneNamesBack(g) ==> Harmless(g, provider)
  {
    if Harmless(g, provider) {
      forall ids, edges: seq<EdgeId> | forall id :: id in edges ==> id in g.edges
        ensures TrustExact(g, provider, ids, edges)
      {
        HarmlessIsExact(g, provider, ids, edges);
      }
    } else {
      var x, u :| NamesBack(g, x, u) && !InTrouble(g, provider, u);
      BackReferenceMisleads(g, provider, x, u);
    }
  }
}
