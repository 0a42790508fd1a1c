/** The shared cache of a projection gives every node its own record, in any order, exactly when no node names an
    older revision of a node that depends on it. */
module FreshnessOrder {
  import opened Freshness
  import opened FreshnessProofs
  import opened MemoryGraph
  import opened Prelude

  /** The record reports every anchor that names an older revision of `x` as a dependency cycle. */
  ghost predicate Tainted(g: Graph, x: NodeId, id: NodeId, out: Evaluated) {
    && |out.sources| == |AnchorsInForce(g, id)|
    && forall i :: 0 <= i < |out.sources| && OutdatedAt(g, AnchorsInForce(g, id)[i], x)
         ==> out.sources[i] == OnStack(x) && out.grade == Degraded
  }

  ghost predicate AllTainted(g: Graph, x: NodeId, cache: Cache) {
    forall id {:trigger Tainted(g, x, id, cache[id])} :: id in cache ==> Tainted(g, x, id, cache[id])
  }

  /** Whatever a cached node depends on is cached too, or still on the stack. */
  ghost predicate Closed(g: Graph, cache: Cache, stack: set<NodeId>) {
    forall u, v :: u in cache && Depends(g, u, v) ==> v in cache || v in stack
  }

  /** What a walk below `x` keeps of its cache. */
  ghost predicate Below(g: Graph, x: NodeId, before: Cache, after: Cache, stack: set<NodeId>) {
    AllTainted(g, x, after) && Closed(g, after, stack) && before.Keys <= after.Keys
  }

  lemma {:induction false} StatusTaints(g: Graph, provider: Provider, x: NodeId, a: Anchor, stack: set<NodeId>,
                                        cache: Cache)
    requires x in stack && AllTainted(g, x, cache) && Closed(g, cache, stack)
    ensures var (s, cache1) := AnchorStatusCached(g, provider, a, stack, cache);
            && Below(g, x, cache, cache1, stack)
            && (OutdatedAt(g, a, x) ==> s == OnStack(x))
            && (forall v :: DependsAt(g, a, v) ==> v in cache1 || v in stack)
    decreases g.nodes.Keys - stack, 0, 0
  {
    if a.kind.MemoryAnchor? && a.sourceRef.Some? && Follows(g, a) && a.sourceRef.value !in stack {
      var ref := a.sourceRef.value;
      assert ref in g.nodes.Keys - stack && ref !in g.nodes.Keys - (stack + {ref});
      NodeTaints(g, provider, x, ref, stack + {ref}, cache);
    }
  }

  lemma {:induction false} StatusesTaint(g: Graph, provider: Provider, x: NodeId, anchors: seq<Anchor>,
                                         stack: set<NodeId>, cache: Cache)
    requires x in stack && AllTainted(g, x, cache) && Closed(g, cache, stack)
    ensures var (ss, cache1) := AnchorStatusesCached(g, provider, anchors, stack, cache);
            && Below(g, x, cache, cache1, stack)
            && (forall i :: 0 <= i < |anchors| && OutdatedAt(g, anchors[i], x) ==> ss[i] == OnStack(x))
            && (forall i, v :: 0 <= i < |anchors| && DependsAt(g, anchors[i], v) ==> v in cache1 || v in stack)
    decreases g.nodes.Keys - stack, 1, |anchors|
  {
    if anchors != [] {
      StatusTaints(g, provider, x, anchors[0], stack, cache);
      var cache1 := AnchorStatusCached(g, provider, anchors[0], stack, cache).1;
      StatusesTaint(g, provider, x, anchors[1..], stack, cache1);
      var cache2 := AnchorStatusesCached(g, provider, anchors[1..], stack, cache1).1;
      forall i, v | 0 <= i < |anchors| && DependsAt(g, anchors[i], v)
        ensures v in cache2 || v in stack
      {
        if i > 0 {
          assert DependsAt(g, anchors[1..][i - 1], v);
        } else {
          assert v in cache1.Keys ==> v in cache2.Keys;
        }
      }
    }
  }

  /** A walk with `x` on its stack caches everything it reaches, and whatever it caches that names an older revision
      of `x` is degraded by it, on every store. */
  lemma {:induction false} NodeTaints(g: Graph, provider: Provider, x: NodeId, id: NodeId, stack: set<NodeId>,
                                      cache: Cache)
    requires x in stack && AllTainted(g, x, cache) && Closed(g, cache, stack)
    ensures var cache1 := EvaluateCached(g, provider, id, stack, cache).1;
            Below(g, x, cache, cache1, stack) && Closed(g, cache1, stack - {id}) && id in cache1
    decreases g.nodes.Keys - stack, 2, 0
  {
    if id !in cache {
      var anchors := AnchorsInForce(g, id);
      StatusesTaint(g, provider, x, anchors, stack, cache);
      var (sources, cache1) := AnchorStatusesCached(g, provider, anchors, stack, cache);
      var out := Evaluated(id, Combine(Grades(sources)), sources);
      RecordTaints(g, x, id, out);
      AddTainted(g, x, cache1, id, out);
      forall u, v | u in cache1[id := out] && Depends(g, u, v)
        ensures v in cache1[id := out] || v in stack - {id}
      {
        if u == id {
          var i :| 0 <= i < |anchors| && DependsAt(g, anchors[i], v);
        }
      }
    }
  }

  lemma RecordTaints(g: Graph, x: NodeId, id: NodeId, out: Evaluated)
    requires |out.sources| == |AnchorsInForce(g, id)| && out.grade == Combine(Grades(out.sources))
    requires forall i :: 0 <= i < |out.sources| ==> out.sources[i].grade != Unbound
    requires forall i :: 0 <= i < |out.sources| && OutdatedAt(g, AnchorsInForce(g, id)[i], x)
              ==> out.sources[i] == OnStack(x)
    ensures Tainted(g, x, id, out)
  {
    CombineGood(Grades(out.sources));
    forall i | 0 <= i < |out.sources| && OutdatedAt(g, AnchorsInForce(g, id)[i], x)
      ensures out.grade == Degraded
    {
      assert Grades(out.sources)[i] == Degraded;
    }
  }

  lemma AddTainted(g: Graph, x: NodeId, cache: Cache, id: NodeId, out: Evaluated)
    requires AllTainted(g, x, cache) && Tainted(g, x, id, out)
    ensures AllTainted(g, x, cache[id := out])
  {
    var next := cache[id := out];
    forall k | k in next
      ensures Tainted(g, x, k, next[k])
    {
      if k != id {
        assert Tainted(g, x, k, cache[k]);
      }
    }
  }

  lemma {:induction false} PathIsCached(g: Graph, cache: Cache, p: seq<NodeId>)
    requires Closed(g, cache, {}) && IsPath(g, p) && p[0] in cache
    ensures Last(p) in cache
    decreases |p|
  {
    if |p| > 1 {
      PathTail(g, p);
      PathIsCached(g, cache, p[1..]);
    }
  }

  ghost predicate ProjectsAlone(g: Graph, provider: Provider, ids: seq<NodeId>) {
    forall i :: 0 <= i < |ids| ==> Project(g, provider, ids, map[]).0[i] == Alone(g, provider, ids[i])
  }

  /** Projecting `x` first leaves a degraded record of `u` in the cache that is not `u`'s own, on every store. */
  lemma BackReferenceSpoils(g: Graph, provider: Provider, x: NodeId, u: NodeId)
    requires NamesBack(g, x, u)
    ensures Project(g, provider, [x, u], map[]).0[1].grade == Degraded
    ensures !ProjectsAlone(g, provider, [x, u])
  {
    NodeTaints(g, provider, x, x, {x}, map[]);
    var cache := EvaluateCached(g, provider, x, {x}, map[]).1;
    assert {x} - {x} == {};
    var p :| IsPath(g, p) && p[0] == x && Last(p) == u;
    PathIsCached(g, cache, p);
    assert Tainted(g, x, u, cache[u]);
    SecondIsCached(g, provider, x, u, cache);
    var i :| 0 <= i < |AnchorsInForce(g, u)| && OutdatedAt(g, AnchorsInForce(g, u)[i], x);
    OutdatedStatuses(g, provider, AnchorsInForce(g, u)[i], x, {x}, u);
    assert Alone(g, provider, u).sources[i] != OnStack(x);
    assert [x, u][1] == u;
  }

  lemma SecondIsCached(g: Graph, provider: Provider, x: NodeId, u: NodeId, cache: Cache)
    requires cache == EvaluateCached(g, provider, x, {x}, map[]).1 && u in cache
    ensures Project(g, provider, [x, u], map[]).0[1] == cache[u]
  {
    assert [x, u][1..] == [u] && [u][0] == u;
    assert Project(g, provider, [u], cache).0[0] == cache[u];
  }

  /** On a pinned store, projecting with one shared cache gives every node exactly its own record, for every
      selection of nodes in every order, if and only if no node names an older revision of a node that depends on
      it. */
  lemma SharedCacheIsExactIff(g: Graph, provider: Provider)
    requires Ranked(g)
    ensures NoneNamesBack(g) <==> forall ids :: ProjectsAlone(g, provider, ids)
  {
    if NoneNamesBack(g) {
      forall ids
        ensures ProjectsAlone(g, provider, ids)
      {
        ProjectionAgrees(g, provider, ids, map[]);
      }
    } else {
      var x, u :| NamesBack(g, x, u);
      BackReferenceSpoils(g, provider, x, u);
    }
  }
}
