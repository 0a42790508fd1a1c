/** Freshness of memory nodes: a memoised, mutually recursive walk over provenance anchors.

    `Evaluate` is the walk without its cache; `EvaluateCached` threads the cache of one projection.
    The answer a provider gives about a material is a parameter, fixed for the whole projection. */
module Freshness {
  import opened Prelude
  import opened MemoryGraph
  import opened MemoryHistory

  type Provider = Material -> bool

  // ---- the anchors in force --------------------------------------------------------------

  function AnchorsAt(anchors: seq<Anchor>, entity: Entity, id: string, revision: nat): (found: seq<Anchor>)
    ensures forall a :: a in found <==> a in anchors && a.entity == entity && a.id == id && a.revision == revision
  {
    if anchors == [] then []
    else
      var a := anchors[0];
      (if a.entity == entity && a.id == id && a.revision == revision then [a] else [])
      + AnchorsAt(anchors[1..], entity, id, revision)
  }

  /** The greatest revision below a bound that has anchors. */
  function LatestBefore(anchors: seq<Anchor>, entity: Entity, id: string, below: nat): Option<nat> {
    if anchors == [] then None
    else
      var rest, a := LatestBefore(anchors[1..], entity, id, below), anchors[0];
      if a.entity == entity && a.id == id && a.revision < below && (rest.None? || rest.value < a.revision)
      then Some(a.revision) else rest
  }

  /** The anchors of a revision, or of the latest earlier revision that has any. */
  function AnchorsFor(g: Graph, entity: Entity, id: string, revision: nat): (found: seq<Anchor>)
    ensures forall a :: a in found ==> a in g.anchors && a.entity == entity && a.id == id
  {
    var own := AnchorsAt(g.anchors, entity, id, revision);
    var latest := LatestBefore(g.anchors, entity, id, revision);
    if own != [] then own
    else if latest.Some? then AnchorsAt(g.anchors, entity, id, latest.value)
    else []
  }

  function AnchorsInForce(g: Graph, id: NodeId): (found: seq<Anchor>)
    ensures forall a :: a in found ==> a in g.anchors && a.entity == NodeEntity && a.id == id
  {
    if id in g.nodes then AnchorsFor(g, NodeEntity, id, g.nodes[id].revision) else []
  }

  // ---- statuses and their combination ----------------------------------------------------

  datatype Grade = Unbound | Semantic | Fresh | Stale | Degraded

  datatype Reason = NoReason | MissingRef | DependencyCycle | DependencyMissing | ProviderSaysStale

  datatype Origin = NoOrigin | PinnedRequest | PinnedMaterial | Unpinned | PinnedCurrent | SourceRevised

  datatype Status = Status(kind: AnchorKind, grade: Grade, reason: Reason, origin: Origin,
                           ref: Option<string>, pinned: Option<nat>, current: Option<nat>)

  datatype Evaluated = Evaluated(id: NodeId, grade: Grade, sources: seq<Status>)

  predicate Good(grade: Grade) {
    grade.Fresh? || grade.Semantic? || grade.Unbound?
  }

  function Combine(values: seq<Grade>): Grade {
    if values == [] then Unbound
    else if forall v :: v in values ==> v == Semantic then Semantic
    else if forall v :: v in values && v != Semantic ==> v == Fresh then Fresh
    else if (forall v :: v in values && v != Semantic ==> v == Stale) && Semantic !in values then Stale
    else if Stale in values || Degraded in values then Degraded
    else Fresh
  }

  function Grades(sources: seq<Status>): (grades: seq<Grade>)
    ensures |grades| == |sources|
    ensures forall i :: 0 <= i < |sources| ==> grades[i] == sources[i].grade
  {
    seq(|sources|, i requires 0 <= i < |sources| => sources[i].grade)
  }

  /** The order of the anchors never matters to the combined grade. */
  lemma CombineIgnoresOrder(a: seq<Grade>, b: seq<Grade>)
    requires multiset(a) == multiset(b)
    ensures Combine(a) == Combine(b)
  {
    assert |multiset(a)| == |multiset(b)|;
    forall v
      ensures v in a <==> v in b
    {
      assert v in a <==> v in multiset(a);
      assert v in b <==> v in multiset(b);
    }
  }

  /** A node is trusted exactly when every one of its statuses is fresh or semantic. */
  lemma CombineGood(values: seq<Grade>)
    requires Unbound !in values
    ensures Good(Combine(values)) <==> Stale !in values && Degraded !in values
    ensures Degraded in values ==> Combine(values) == Degraded
  {
    assert forall v :: v in values ==> v == Semantic || v == Fresh || v == Stale || v == Degraded;
  }

  /** What each combined grade says about the grades it combines. */
  lemma CombineIsExact(values: seq<Grade>)
    requires Unbound !in values
    ensures Combine(values) == Unbound <==> values == []
    ensures Combine(values) == Semantic <==> values != [] && forall v :: v in values ==> v == Semantic
    ensures Combine(values) == Fresh <==> Fresh in values && forall v :: v in values ==> v == Fresh || v == Semantic
    ensures Combine(values) == Stale <==> values != [] && forall v :: v in values ==> v == Stale
  {
    if values != [] {
      assert values[0] in values;
    }
    assert forall v :: v in values ==> v == Semantic || v == Fresh || v == Stale || v == Degraded;
  }

  // ---- the walk without a cache ----------------------------------------------------------

  /** A memory anchor whose source is not on the stack. */
  predicate Follows(g: Graph, a: Anchor) {
    && a.kind.MemoryAnchor? && a.sourceRef.Some? && a.sourceRef.value in g.nodes
    && (a.sourceRevision.None? || a.sourceRevision.value == g.nodes[a.sourceRef.value].revision)
  }

  /** As the status of an anchor, an unbound source counts as semantic. */
  function AsStatusGrade(grade: Grade): (g: Grade)
    ensures g != Unbound
  {
    if grade.Unbound? then Semantic else grade
  }

  /** The status of a memory anchor off the stack, given the grade of its source when it is followed. */
  function MemoryStatus(g: Graph, a: Anchor, sourceGrade: Grade): (s: Status)
    requires a.kind.MemoryAnchor? && a.sourceRef.Some?
    ensures s.grade != Unbound
  {
    var ref := a.sourceRef.value;
    if ref !in g.nodes then
      Status(MemoryAnchor, Stale, DependencyMissing, NoOrigin, Some(ref), a.sourceRevision, None)
    else
      var current := g.nodes[ref].revision;
      if a.sourceRevision.None? then
        Status(MemoryAnchor, AsStatusGrade(sourceGrade), NoReason, Unpinned, Some(ref), None, Some(current))
      else if a.sourceRevision.value != current then
        Status(MemoryAnchor, Semantic, NoReason, SourceRevised, Some(ref), a.sourceRevision, Some(current))
      else
        Status(MemoryAnchor, AsStatusGrade(sourceGrade), NoReason, PinnedCurrent, Some(ref), a.sourceRevision,
               Some(current))
  }

  /** The status of an anchor that needs no other node. */
  function OtherStatus(g: Graph, provider: Provider, a: Anchor): (s: Status)
    requires !a.kind.MemoryAnchor?
    ensures s.grade != Unbound
  {
    match a.kind
    case RequestAnchor => Status(a.kind, Semantic, NoReason, PinnedRequest, None, None, None)
    case MaterialAnchor =>
      if provider(a.material) then Status(a.kind, Fresh, NoReason, PinnedMaterial, a.sourceRef, None, None)
      else Status(a.kind, Stale, ProviderSaysStale, PinnedMaterial, a.sourceRef, None, None)
    case RelationAnchor =>
      if a.sourceRef.None? then Status(a.kind, Degraded, MissingRef, NoOrigin, None, None, None)
      else if a.sourceRef.value !in g.edges then
        Status(a.kind, Stale, DependencyMissing, NoOrigin, a.sourceRef, a.sourceRevision, None)
      else
        var current := g.edges[a.sourceRef.value].revision;
        Status(a.kind, Semantic, NoReason,
               if a.sourceRevision.None? then Unpinned
               else if a.sourceRevision.value == current then PinnedCurrent else SourceRevised,
               a.sourceRef, a.sourceRevision, Some(current))
  }

  function OnStack(ref: NodeId): Status {
    Status(MemoryAnchor, Degraded, DependencyCycle, NoOrigin, Some(ref), None, None)
  }

  function AnchorStatus(g: Graph, provider: Provider, a: Anchor, stack: set<NodeId>): (s: Status)
    ensures s.grade != Unbound
    decreases g.nodes.Keys - stack, 0, 0
  {
    if !a.kind.MemoryAnchor? then OtherStatus(g, provider, a)
    else if a.sourceRef.None? then Status(MemoryAnchor, Degraded, MissingRef, NoOrigin, None, None, None)
    else
      var ref := a.sourceRef.value;
      if ref in stack then OnStack(ref)
      else if Follows(g, a) then
        assert ref in g.nodes.Keys - stack && ref !in g.nodes.Keys - (stack + {ref});
        MemoryStatus(g, a, Evaluate(g, provider, ref, stack + {ref}).grade)
      else MemoryStatus(g, a, Unbound)
  }

  function AnchorStatuses(g: Graph, provider: Provider, anchors: seq<Anchor>, stack: set<NodeId>): (ss: seq<Status>)
    ensures |ss| == |anchors|
    ensures forall i :: 0 <= i < |anchors| ==> ss[i] == AnchorStatus(g, provider, anchors[i], stack)
    decreases g.nodes.Keys - stack, 1, |anchors|
  {
    if anchors == [] then []
    else [AnchorStatus(g, provider, anchors[0], stack)] + AnchorStatuses(g, provider, anchors[1..], stack)
  }

  /** The walk from a node; it ends on every store because followed sources leave `nodes - stack`. */
  function Evaluate(g: Graph, provider: Provider, id: NodeId, stack: set<NodeId>): (r: Evaluated)
    ensures r.id == id
    decreases g.nodes.Keys - stack, 2, 0
  {
    var sources := AnchorStatuses(g, provider, AnchorsInForce(g, id), stack);
    Evaluated(id, Combine(Grades(sources)), sources)
  }

  /** A memory anchor that names a node of the store at the node's current revision, or without a revision. */
  predicate DependsAt(g: Graph, a: Anchor, v: NodeId) {
    && a.kind.MemoryAnchor? && a.sourceRef == Some(v) && v in g.nodes
    && (a.sourceRevision == None || a.sourceRevision == Some(g.nodes[v].revision))
  }

  /** The anchor vouches for its node: the provider confirms its material, or the node it names is fresh. */
  predicate SaysFresh(g: Graph, provider: Provider, a: Anchor, stack: set<NodeId>) {
    match a.kind
    case MaterialAnchor => provider(a.material)
    case MemoryAnchor =>
      && a.sourceRef.Some? && a.sourceRef.value !in stack && DependsAt(g, a, a.sourceRef.value)
      && EvaluateBelow(g, provider, a.sourceRef.value, stack) == Fresh
    case _ => false
  }

  /** The anchor gives its node away: changed material, a missing source, or a stale source. */
  predicate SaysStale(g: Graph, provider: Provider, a: Anchor, stack: set<NodeId>) {
    match a.kind
    case MaterialAnchor => !provider(a.material)
    case RelationAnchor => a.sourceRef.Some? && a.sourceRef.value !in g.edges
    case MemoryAnchor =>
      && a.sourceRef.Some? && a.sourceRef.value !in stack
      && (a.sourceRef.value !in g.nodes
          || (DependsAt(g, a, a.sourceRef.value) && EvaluateBelow(g, provider, a.sourceRef.value, stack) == Stale))
    case RequestAnchor => false
  }

  /** The anchor cannot be judged: it names nothing, or a node on the stack, or a degraded node. */
  predicate SaysDegraded(g: Graph, provider: Provider, a: Anchor, stack: set<NodeId>) {
    match a.kind
    case RelationAnchor => a.sourceRef.None?
    case MemoryAnchor =>
      || a.sourceRef.None? || a.sourceRef.value in stack
      || (DependsAt(g, a, a.sourceRef.value) && EvaluateBelow(g, provider, a.sourceRef.value, stack) == Degraded)
    case _ => false
  }

  function EvaluateBelow(g: Graph, provider: Provider, id: NodeId, stack: set<NodeId>): Grade {
    Evaluate(g, provider, id, stack + {id}).grade
  }

  /** The grade of a node, from the anchors in force alone: none at all, all giving it away, some vouching for it
      and none against it, only neutral ones, or anything else. */
  lemma GradeIsExact(g: Graph, provider: Provider, id: NodeId, stack: set<NodeId>)
    ensures var (grade, anchors) := (Evaluate(g, provider, id, stack).grade, AnchorsInForce(g, id));
            && (grade == Unbound <==> anchors == [])
            && (grade == Stale <==> anchors != [] && forall a :: a in anchors ==> SaysStale(g, provider, a, stack))
            && (Good(grade) <==> forall a :: a in anchors
                                  ==> !SaysStale(g, provider, a, stack) && !SaysDegraded(g, provider, a, stack))
            && (grade == Fresh <==> Good(grade) && exists a :: a in anchors && SaysFresh(g, provider, a, stack))
  {
    var anchors := AnchorsInForce(g, id);
    var grades := Grades(AnchorStatuses(g, provider, anchors, stack));
    CombineIsExact(grades);
    CombineGood(grades);
    GradesAre(g, provider, anchors, stack, Fresh);
    GradesAre(g, provider, anchors, stack, Stale);
    GradesAre(g, provider, anchors, stack, Degraded);
    forall a | a in anchors
      ensures GradeOf(g, provider, a, stack) == Fresh <==> SaysFresh(g, provider, a, stack)
      ensures GradeOf(g, provider, a, stack) == Stale <==> SaysStale(g, provider, a, stack)
      ensures GradeOf(g, provider, a, stack) == Degraded <==> SaysDegraded(g, provider, a, stack)
    {
      StatusSays(g, provider, a, stack);
    }
  }

  function GradeOf(g: Graph, provider: Provider, a: Anchor, stack: set<NodeId>): Grade {
    AnchorStatus(g, provider, a, stack).grade
  }

  lemma GradesAre(g: Graph, provider: Provider, anchors: seq<Anchor>, stack: set<NodeId>, v: Grade)
    ensures var grades := Grades(AnchorStatuses(g, provider, anchors, stack));
            && |grades| == |anchors| && Unbound !in grades
            && (v in grades <==> exists a :: a in anchors && GradeOf(g, provider, a, stack) == v)
            && ((forall w :: w in grades ==> w == v)
                <==> forall a :: a in anchors ==> GradeOf(g, provider, a, stack) == v)
  {
    var grades := Grades(AnchorStatuses(g, provider, anchors, stack));
    assert forall i :: 0 <= i < |anchors| ==>
             grades[i] == GradeOf(g, provider, anchors[i], stack) && grades[i] in grades;
    assert forall i :: 0 <= i < |anchors| ==> anchors[i] in anchors;
  }

  lemma StatusSays(g: Graph, provider: Provider, a: Anchor, stack: set<NodeId>)
    ensures var grade := AnchorStatus(g, provider, a, stack).grade;
            && grade != Unbound
            && (grade == Fresh <==> SaysFresh(g, provider, a, stack))
            && (grade == Stale <==> SaysStale(g, provider, a, stack))
            && (grade == Degraded <==> SaysDegraded(g, provider, a, stack))
  {
  }

  // ---- the walk with the cache of a projection -------------------------------------------

  type Cache = map<NodeId, Evaluated>

  function AnchorStatusCached(g: Graph, provider: Provider, a: Anchor, stack: set<NodeId>, cache: Cache)
    : (r: (Status, Cache))
    ensures r.0.grade != Unbound
    decreases g.nodes.Keys - stack, 0, 0
  {
    if !a.kind.MemoryAnchor? then (OtherStatus(g, provider, a), cache)
    else if a.sourceRef.None? then (Status(MemoryAnchor, Degraded, MissingRef, NoOrigin, None, None, None), cache)
    else
      var ref := a.sourceRef.value;
      if ref in stack then (OnStack(ref), cache)
      else if Follows(g, a) then
        assert ref in g.nodes.Keys - stack && ref !in g.nodes.Keys - (stack + {ref});
        var (source, cache1) := EvaluateCached(g, provider, ref, stack + {ref}, cache);
        (MemoryStatus(g, a, source.grade), cache1)
      else (MemoryStatus(g, a, Unbound), cache)
  }

  function AnchorStatusesCached(g: Graph, provider: Provider, anchors: seq<Anchor>, stack: set<NodeId>, cache: Cache)
    : (r: (seq<Status>, Cache))
    ensures |r.0| == |anchors|
    ensures forall i :: 0 <= i < |anchors| ==> r.0[i].grade != Unbound
    decreases g.nodes.Keys - stack, 1, |anchors|
  {
    if anchors == [] then ([], cache)
    else
      var (first, cache1) := AnchorStatusCached(g, provider, anchors[0], stack, cache);
      var (rest, cache2) := AnchorStatusesCached(g, provider, anchors[1..], stack, cache1);
      ([first] + rest, cache2)
  }

  function EvaluateCached(g: Graph, provider: Provider, id: NodeId, stack: set<NodeId>, cache: Cache)
    : (Evaluated, Cache)
    decreases g.nodes.Keys - stack, 2, 0
  {
    if id in cache then (cache[id], cache)
    else
      var (sources, cache1) := AnchorStatusesCached(g, provider, AnchorsInForce(g, id), stack, cache);
      var out := Evaluated(id, Combine(Grades(sources)), sources);
      (out, cache1[id := out])
  }

  /** The records of one projection, sharing one cache. */
  function Project(g: Graph, provider: Provider, ids: seq<NodeId>, cache: Cache): (r: (seq<Evaluated>, Cache))
    ensures |r.0| == |ids|
  {
    if |ids| == 0 then ([], cache)
    else
      var (first, cache1) := EvaluateCached(g, provider, ids[0], {ids[0]}, cache);
      var (rest, cache2) := Project(g, provider, ids[1..], cache1);
      ([first] + rest, cache2)
  }

  lemma ProjectNext(g: Graph, provider: Provider, ids: seq<NodeId>, i: nat, cache: Cache)
    requires i < |ids|
    ensures var (record, cache1) := EvaluateCached(g, provider, ids[i], {ids[i]}, cache);
            var rest := Project(g, provider, ids[i + 1..], cache1);
            Project(g, provider, ids[i..], cache) == ([record] + rest.0, rest.1)
  {
    assert ids[i..][0] == ids[i] && ids[i..][1..] == ids[i + 1..];
  }

  // ---- the edges of a projection ---------------------------------------------------------

  datatype EdgeEvaluated = EdgeEvaluated(id: EdgeId, grade: Grade, sources: seq<Status>)

  /** The grade a projected node contributes to its edges; a node outside the projection counts as unbound. */
  function EndpointGrade(nodes: seq<Evaluated>, id: NodeId): Grade {
    if nodes == [] then Unbound
    else
      var n := |nodes| - 1;
      if nodes[n].id == id then nodes[n].grade else EndpointGrade(nodes[..n], id)
  }

  /** An edge without anchors takes its freshness from its two ends. */
  function FromEndpoints(source: Grade, target: Grade): (grade: Grade)
    ensures Good(grade) <==> Good(source) && Good(target)
    ensures grade == Stale <==> source == target == Stale
    ensures Good(grade) ==> grade == Fresh
  {
    if source.Stale? && target.Stale? then Stale
    else if source.Stale? || source.Degraded? || target.Stale? || target.Degraded? then Degraded
    else Fresh
  }

  function EdgeAnchors(g: Graph, id: EdgeId): seq<Anchor>
    requires id in g.edges
  {
    AnchorsFor(g, EdgeEntity, id, g.edges[id].revision)
  }

  /** An edge is evaluated after the nodes, from an empty stack and with their cache. */
  function EvaluateEdge(g: Graph, provider: Provider, id: EdgeId, nodes: seq<Evaluated>, cache: Cache)
    : (EdgeEvaluated, Cache)
    requires id in g.edges
  {
    var (sources, cache1) := AnchorStatusesCached(g, provider, EdgeAnchors(g, id), {}, cache);
    var row := g.edges[id];
    var grade := if sources != [] then Combine(Grades(sources))
                 else FromEndpoints(EndpointGrade(nodes, row.source), EndpointGrade(nodes, row.target));
    (EdgeEvaluated(id, grade, sources), cache1)
  }

  function ProjectEdges(g: Graph, provider: Provider, ids: seq<EdgeId>, nodes: seq<Evaluated>, cache: Cache)
    : (r: (seq<EdgeEvaluated>, Cache))
    requires forall id :: id in ids ==> id in g.edges
    ensures |r.0| == |ids|
  {
    if |ids| == 0 then ([], cache)
    else
      var (first, cache1) := EvaluateEdge(g, provider, ids[0], nodes, cache);
      var (rest, cache2) := ProjectEdges(g, provider, ids[1..], nodes, cache1);
      ([first] + rest, cache2)
  }

  lemma ProjectEdgesNext(g: Graph, provider: Provider, ids: seq<EdgeId>, nodes: seq<Evaluated>, i: nat, cache: Cache)
    requires i < |ids| && forall id :: id in ids ==> id in g.edges
    ensures var (record, cache1) := EvaluateEdge(g, provider, ids[i], nodes, cache);
            var rest := ProjectEdges(g, provider, ids[i + 1..], nodes, cache1);
            ProjectEdges(g, provider, ids[i..], nodes, cache) == ([record] + rest.0, rest.1)
  {
    assert ids[i..][0] == ids[i] && ids[i..][1..] == ids[i + 1..];
  }

  /** The evaluator object of one projection: the same walk, writing its cache in place. */
  class Projector {
    var cache: Cache
    const g: Graph
    const provider: Provider

    constructor (g: Graph, provider: Provider)
      ensures this.g == g && this.provider == provider && cache == map[]
    {
      this.g, this.provider, this.cache := g, provider, map[];
    }

    method StatusOf(a: Anchor, stack: set<NodeId>) returns (s: Status)
      modifies this
      ensures (s, cache) == AnchorStatusCached(g, provider, a, stack, old(cache))
      decreases g.nodes.Keys - stack, 0, 0
    {
      if !a.kind.MemoryAnchor? {
        return OtherStatus(g, provider, a);
      }
      if a.sourceRef.None? {
        return Status(MemoryAnchor, Degraded, MissingRef, NoOrigin, None, None, None);
      }
      var ref := a.sourceRef.value;
      if ref in stack {
        return OnStack(ref);
      }
      if !Follows(g, a) {
        return MemoryStatus(g, a, Unbound);
      }
      assert ref in g.nodes.Keys - stack && ref !in g.nodes.Keys - (stack + {ref});
      var source := EvaluateNode(ref, stack + {ref});
      return MemoryStatus(g, a, source.grade);
    }

    method StatusesOf(anchors: seq<Anchor>, stack: set<NodeId>) returns (sources: seq<Status>)
      modifies this
      ensures (sources, cache) == AnchorStatusesCached(g, provider, anchors, stack, old(cache))
      decreases g.nodes.Keys - stack, 1, |anchors|
    {
      if anchors == [] {
        return [];
      }
      var first := StatusOf(anchors[0], stack);
      var rest := StatusesOf(anchors[1..], stack);
      sources := [first] + rest;
    }

    method EvaluateNode(id: NodeId, stack: set<NodeId>) returns (out: Evaluated)
      modifies this
      ensures (out, cache) == EvaluateCached(g, provider, id, stack, old(cache))
      decreases g.nodes.Keys - stack, 2, 0
    {
      if id in cache {
        return cache[id];
      }
      var sources := StatusesOf(AnchorsInForce(g, id), stack);
      out := Evaluated(id, Combine(Grades(sources)), sources);
      cache := cache[id := out];
    }

    method ProjectNodes(ids: seq<NodeId>) returns (records: seq<Evaluated>)
      modifies this
      ensures (records, cache) == Project(g, provider, ids, old(cache))
    {
      records := [];
      ghost var whole := Project(g, provider, ids, cache);
      assert ids[0..] == ids;
      for i := 0 to |ids|
        invariant whole.0 == records + Project(g, provider, ids[i..], cache).0
        invariant whole.1 == Project(g, provider, ids[i..], cache).1
      {
        ProjectNext(g, provider, ids, i, cache);
        var record := EvaluateNode(ids[i], {ids[i]});
        records := records + [record];
      }
      assert ids[|ids|..] == [];
      assert whole.0 == records && whole.1 == cache;
    }

    method EndpointOf(nodes: seq<Evaluated>, id: NodeId) returns (grade: Grade)
      ensures grade == EndpointGrade(nodes, id)
    {
      grade := Unbound;
      for i := 0 to |nodes|
        invariant grade == EndpointGrade(nodes[..i], id)
      {
        assert nodes[..i + 1][..i] == nodes[..i];
        if nodes[i].id == id {
          grade := nodes[i].grade;
        }
      }
      assert nodes[..|nodes|] == nodes;
    }

    method EvaluateOneEdge(id: EdgeId, nodes: seq<Evaluated>) returns (out: EdgeEvaluated)
      requires id in g.edges
      modifies this
      ensures (out, cache) == EvaluateEdge(g, provider, id, nodes, old(cache))
    {
      var sources := StatusesOf(EdgeAnchors(g, id), {});
      if sources != [] {
        return EdgeEvaluated(id, Combine(Grades(sources)), sources);
      }
      var source := EndpointOf(nodes, g.edges[id].source);
      var target := EndpointOf(nodes, g.edges[id].target);
      return EdgeEvaluated(id, FromEndpoints(source, target), sources);
    }

    method ProjectRelations(ids: seq<EdgeId>, nodes: seq<Evaluated>) returns (records: seq<EdgeEvaluated>)
      requires forall id :: id in ids ==> id in g.edges
      modifies this
      ensures (records, cache) == ProjectEdges(g, provider, ids, nodes, old(cache))
    {
      records := [];
      ghost var whole := ProjectEdges(g, provider, ids, nodes, cache);
      for i := 0 to |ids|
        invariant whole.0 == records + ProjectEdges(g, provider, ids[i..], nodes, cache).0
        invariant whole.1 == ProjectEdges(g, provider, ids[i..], nodes, cache).1
      {
        ProjectEdgesNext(g, provider, ids, nodes, i, cache);
        var record := EvaluateOneEdge(ids[i], nodes);
        records := records + [record];
      }
      assert ids[|ids|..] == [];
      assert whole.0 == records && whole.1 == cache;
    }
  }
}
