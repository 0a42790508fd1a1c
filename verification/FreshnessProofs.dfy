/** When the freshness walk means what it says: what a bad grade witnesses, why pinned stores have no
    dependency cycles, and exactly when a record does not depend on who asked first. */
module FreshnessProofs {
  import opened Prelude
  import opened MemoryGraph
  import opened MemoryHistory
  import opened Freshness

  // ---- naming, depending, paths ----------------------------------------------------------

  /** An anchor in force of `u` names `v`, at whatever revision. */
  predicate Names(g: Graph, u: NodeId, v: NodeId) {
    exists i :: 0 <= i < |AnchorsInForce(g, u)| && NamesAt(AnchorsInForce(g, u)[i], v)
  }

  predicate NamesAt(a: Anchor, v: NodeId) {
    a.kind.MemoryAnchor? && a.sourceRef == Some(v)
  }

  /** An anchor in force of `u` names `v` at `v`'s current revision, or unpinned. */
  predicate Depends(g: Graph, u: NodeId, v: NodeId) {
    exists i :: 0 <= i < |AnchorsInForce(g, u)| && DependsAt(g, AnchorsInForce(g, u)[i], v)
  }

  /** A dependency path, as its nodes. */
  predicate IsPath(g: Graph, p: seq<NodeId>) {
    && |p| > 0
    && forall i :: 0 <= i < |p| - 1 ==> Depends(g, p[i], p[i + 1])
  }

  function Last(p: seq<NodeId>): NodeId
    requires |p| > 0
  {
    p[|p| - 1]
  }

  function NodesOf(p: seq<NodeId>): set<NodeId> {
    set x | x in p
  }

  ghost predicate Reaches(g: Graph, u: NodeId, v: NodeId) {
    exists p :: IsPath(g, p) && p[0] == u && Last(p) == v
  }

  lemma ReachesStep(g: Graph, x: NodeId, u: NodeId, v: NodeId)
    requires Reaches(g, x, u) && Depends(g, u, v)
    ensures Reaches(g, x, v)
  {
    var p :| IsPath(g, p) && p[0] == x && Last(p) == u;
    PathExtends(g, p, v);
    assert (p + [v])[0] == x && Last(p + [v]) == v;
  }

  lemma PathExtends(g: Graph, p: seq<NodeId>, v: NodeId)
    requires IsPath(g, p) && Depends(g, Last(p), v)
    ensures IsPath(g, p + [v])
  {
    var q := p + [v];
    forall i | 0 <= i < |q| - 1
      ensures Depends(g, q[i], q[i + 1])
    {
      if i < |p| - 1 {
        assert q[i] == p[i] && q[i + 1] == p[i + 1];
      }
    }
  }

  lemma ReachesSelf(g: Graph, u: NodeId)
    ensures Reaches(g, u, u)
  {
    assert IsPath(g, [u]) && [u][0] == u && Last([u]) == u;
  }

  lemma PathTail(g: Graph, p: seq<NodeId>)
    requires IsPath(g, p) && |p| > 1
    ensures IsPath(g, p[1..]) && Last(p[1..]) == Last(p) && Depends(g, p[0], p[1])
    ensures NodesOf(p) == {p[0]} + NodesOf(p[1..])
  {
    forall i | 0 <= i < |p[1..]| - 1
      ensures Depends(g, p[1..][i], p[1..][i + 1])
    {
      assert Depends(g, p[i + 1], p[i + 2]);
    }
    assert p == [p[0]] + p[1..];
  }

  lemma PathCons(g: Graph, u: NodeId, p: seq<NodeId>)
    requires IsPath(g, p) && Depends(g, u, p[0])
    ensures IsPath(g, [u] + p) && Last([u] + p) == Last(p)
    ensures NodesOf([u] + p) == {u} + NodesOf(p)
  {
    var q := [u] + p;
    forall i | 0 <= i < |q| - 1
      ensures Depends(g, q[i], q[i + 1])
    {
      assert i > 0 ==> q[i] == p[i - 1] && q[i + 1] == p[i];
    }
  }

  // ---- what a bad grade witnesses --------------------------------------------------------

  /** The anchor is bad whatever else the store holds. */
  predicate BadAnchor(g: Graph, provider: Provider, a: Anchor) {
    match a.kind
    case RequestAnchor => false
    case MaterialAnchor => !provider(a.material)
    case RelationAnchor => a.sourceRef.None? || a.sourceRef.value !in g.edges
    case MemoryAnchor => a.sourceRef.None? || a.sourceRef.value !in g.nodes
  }

  predicate HasBadAnchor(g: Graph, provider: Provider, id: NodeId) {
    exists i :: 0 <= i < |AnchorsInForce(g, id)| && BadAnchor(g, provider, AnchorsInForce(g, id)[i])
  }

  predicate NamesAny(g: Graph, id: NodeId, targets: set<NodeId>) {
    exists i :: 0 <= i < |AnchorsInForce(g, id)| && NamesOneOf(AnchorsInForce(g, id)[i], targets)
  }

  predicate NamesOneOf(a: Anchor, targets: set<NodeId>) {
    a.kind.MemoryAnchor? && a.sourceRef.Some? && a.sourceRef.value in targets
  }

  /** A dependency path that ends in trouble: a bad anchor, or an anchor naming a node already visited. */
  predicate Trouble(g: Graph, provider: Provider, p: seq<NodeId>, stack: set<NodeId>) {
    && IsPath(g, p)
    && (HasBadAnchor(g, provider, Last(p)) || NamesAny(g, Last(p), stack + NodesOf(p)))
  }

  /** An anchor's status is good unless it is bad itself, names the stack, or follows a bad source. */
  lemma GradeOfStatus(g: Graph, provider: Provider, a: Anchor, stack: set<NodeId>)
    ensures BadAnchor(g, provider, a) ==> !Good(AnchorStatus(g, provider, a, stack).grade)
    ensures NamesOneOf(a, stack) ==> AnchorStatus(g, provider, a, stack) == OnStack(a.sourceRef.value)
    ensures !BadAnchor(g, provider, a) && !NamesOneOf(a, stack) && !Follows(g, a)
            ==> Good(AnchorStatus(g, provider, a, stack).grade)
    ensures !NamesOneOf(a, stack) && Follows(g, a)
            ==> AnchorStatus(g, provider, a, stack)
                == MemoryStatus(g, a, Evaluate(g, provider, a.sourceRef.value, stack + {a.sourceRef.value}).grade)
  {
  }

  lemma GradeOfSources(sources: seq<Status>)
    requires forall i :: 0 <= i < |sources| ==> sources[i].grade != Unbound
    ensures Good(Combine(Grades(sources))) <==> forall i :: 0 <= i < |sources| ==> Good(sources[i].grade)
  {
    var values := Grades(sources);
    CombineGood(values);
    if Stale in values || Degraded in values {
      var i :| 0 <= i < |values| && !Good(values[i]);
      assert !Good(sources[i].grade);
    } else {
      forall i | 0 <= i < |sources|
        ensures Good(sources[i].grade)
      {
        assert values[i] in values;
      }
    }
  }

  lemma GradeOfStatuses(g: Graph, provider: Provider, id: NodeId, stack: set<NodeId>)
    ensures var anchors := AnchorsInForce(g, id);
            Good(Evaluate(g, provider, id, stack).grade)
            <==> forall i :: 0 <= i < |anchors| ==> Good(AnchorStatus(g, provider, anchors[i], stack).grade)
  {
    GradeOfSources(AnchorStatuses(g, provider, AnchorsInForce(g, id), stack));
  }

  /** An anchor that is bad, or names the stack, is trouble at once. */
  lemma TroubleHere(g: Graph, provider: Provider, id: NodeId, i: nat, stack: set<NodeId>)
    requires i < |AnchorsInForce(g, id)|
    requires BadAnchor(g, provider, AnchorsInForce(g, id)[i]) || NamesOneOf(AnchorsInForce(g, id)[i], stack)
    ensures Trouble(g, provider, [id], stack)
  {
    var targets := stack + NodesOf([id]);
    if NamesOneOf(AnchorsInForce(g, id)[i], stack) {
      assert NamesOneOf(AnchorsInForce(g, id)[i], targets);
      assert NamesAny(g, id, targets);
    }
  }

  lemma {:induction false} BadGradeHasTrouble(g: Graph, provider: Provider, id: NodeId, stack: set<NodeId>)
    returns (p: seq<NodeId>)
    requires id in stack && !Good(Evaluate(g, provider, id, stack).grade)
    ensures p != [] && p[0] == id && Trouble(g, provider, p, stack)
    decreases g.nodes.Keys - stack
  {
    GradeOfStatuses(g, provider, id, stack);
    var anchors := AnchorsInForce(g, id);
    var i :| 0 <= i < |anchors| && !Good(AnchorStatus(g, provider, anchors[i], stack).grade);
    var a := anchors[i];
    GradeOfStatus(g, provider, a, stack);
    p := [id];
    if !NamesOneOf(a, stack) && Follows(g, a) {
      var ref := a.sourceRef.value;
      assert ref in g.nodes.Keys - stack && ref !in g.nodes.Keys - (stack + {ref});
      var q := BadGradeHasTrouble(g, provider, ref, stack + {ref});
      p := TroubleCons(g, provider, id, i, q, stack);
    } else {
      TroubleHere(g, provider, id, i, stack);
    }
  }

  lemma TroubleCons(g: Graph, provider: Provider, id: NodeId, i: nat, q: seq<NodeId>, stack: set<NodeId>)
    returns (p: seq<NodeId>)
    requires i < |AnchorsInForce(g, id)| && q != [] && DependsAt(g, AnchorsInForce(g, id)[i], q[0]) && id in stack
    requires Trouble(g, provider, q, stack + {q[0]})
    ensures p == [id] + q && Trouble(g, provider, p, stack)
  {
    p := [id] + q;
    PathCons(g, id, q);
    assert stack + {q[0]} + NodesOf(q) == stack + NodesOf(p);
  }

  lemma TroubleTail(g: Graph, provider: Provider, p: seq<NodeId>, stack: set<NodeId>)
    requires |p| > 1 && p[0] in stack && Trouble(g, provider, p, stack)
    ensures Depends(g, p[0], p[1]) && Trouble(g, provider, p[1..], stack + {p[1]})
  {
    PathTail(g, p);
    assert stack + {p[1]} + NodesOf(p[1..]) == stack + NodesOf(p);
  }

  lemma {:induction false} TroubleGivesBadGrade(g: Graph, provider: Provider, p: seq<NodeId>, stack: set<NodeId>)
    requires p != [] && p[0] in stack && Trouble(g, provider, p, stack)
    ensures !Good(Evaluate(g, provider, p[0], stack).grade)
    decreases |p|
  {
    if |p| == 1 {
      TroubleAtOnce(g, provider, p[0], stack);
    } else {
      TroubleTail(g, provider, p, stack);
      TroubleGivesBadGrade(g, provider, p[1..], stack + {p[1]});
      BadSourceSpoils(g, provider, p[0], p[1], stack);
    }
  }

  lemma TroubleAtOnce(g: Graph, provider: Provider, id: NodeId, stack: set<NodeId>)
    requires id in stack && Trouble(g, provider, [id], stack)
    ensures !Good(Evaluate(g, provider, id, stack).grade)
  {
    var anchors := AnchorsInForce(g, id);
    assert stack + NodesOf([id]) == stack;
    var i :| 0 <= i < |anchors| && (BadAnchor(g, provider, anchors[i]) || NamesOneOf(anchors[i], stack));
    GradeOfStatus(g, provider, anchors[i], stack);
    GradeOfStatuses(g, provider, id, stack);
  }

  lemma BadSourceSpoils(g: Graph, provider: Provider, id: NodeId, ref: NodeId, stack: set<NodeId>)
    requires Depends(g, id, ref) && !Good(Evaluate(g, provider, ref, stack + {ref}).grade)
    ensures !Good(Evaluate(g, provider, id, stack).grade)
  {
    var anchors := AnchorsInForce(g, id);
    var i :| 0 <= i < |anchors| && DependsAt(g, anchors[i], ref);
    FollowedStatusIsBad(g, provider, anchors[i], ref, stack);
    GradeOfStatuses(g, provider, id, stack);
  }

  lemma FollowedStatusIsBad(g: Graph, provider: Provider, a: Anchor, ref: NodeId, stack: set<NodeId>)
    requires DependsAt(g, a, ref) && !Good(Evaluate(g, provider, ref, stack + {ref}).grade)
    ensures !Good(AnchorStatus(g, provider, a, stack).grade)
  {
    GradeOfStatus(g, provider, a, stack);
  }

  ghost predicate InTrouble(g: Graph, provider: Provider, id: NodeId) {
    exists p :: p != [] && p[0] == id && Trouble(g, provider, p, {})
  }

  /** The walk without its cache is sound and complete on every store, cyclic or not: a node is untrusted exactly
      when some dependency path from it ends in a bad anchor or in an anchor naming a node of that same path.
      `FreshnessTrust` says when the walk that shares its cache is. */
  lemma FreshnessIsExact(g: Graph, provider: Provider, id: NodeId)
    ensures Good(Evaluate(g, provider, id, {id}).grade) <==> !InTrouble(g, provider, id)
  {
    if !Good(Evaluate(g, provider, id, {id}).grade) {
      var p := BadGradeHasTrouble(g, provider, id, {id});
      assert {id} + NodesOf(p) == {} + NodesOf(p);
      assert Trouble(g, provider, p, {});
    }
    if InTrouble(g, provider, id) {
      var p :| p != [] && p[0] == id && Trouble(g, provider, p, {});
      assert {id} + NodesOf(p) == {} + NodesOf(p);
      TroubleGivesBadGrade(g, provider, p, {id});
    }
  }

  // ---- pinned stores have no dependency cycles -------------------------------------------

  /** Every memory anchor names a revision, as the supports written by Main always do. */
  ghost predicate AllPinned(g: Graph) {
    forall i :: 0 <= i < |g.anchors| && g.anchors[i].kind.MemoryAnchor? ==> g.anchors[i].sourceRevision.Some?
  }

  /** Along every dependency between distinct nodes, the last revision lies further back. */
  ghost predicate Ranked(g: Graph) {
    forall u, v :: Depends(g, u, v) && u != v ==> LastRevised(g.log, v) < LastRevised(g.log, u)
  }

  lemma PinnedStoreIsRanked(g: Graph)
    requires PinsLookBack(g) && AllPinned(g)
    ensures Ranked(g)
  {
    forall u, v | Depends(g, u, v) && u != v
      ensures LastRevised(g.log, v) < LastRevised(g.log, u)
    {
      var i :| 0 <= i < |AnchorsInForce(g, u)| && DependsAt(g, AnchorsInForce(g, u)[i], v);
      var a := AnchorsInForce(g, u)[i];
      var k :| 0 <= k < |g.anchors| && g.anchors[k] == a;
      assert PinLooksBack(g, g.anchors[k]);
    }
  }

  lemma {:induction false} TimeFallsAlongPath(g: Graph, p: seq<NodeId>)
    requires Ranked(g) && IsPath(g, p)
    ensures forall i :: 0 <= i < |p| ==> p[i] == p[0] || LastRevised(g.log, p[i]) < LastRevised(g.log, p[0])
    decreases |p|
  {
    if |p| > 1 {
      PathTail(g, p);
      TimeFallsAlongPath(g, p[1..]);
      forall i | 0 <= i < |p|
        ensures p[i] == p[0] || LastRevised(g.log, p[i]) < LastRevised(g.log, p[0])
      {
        if i > 0 {
          assert p[i] == p[1..][i - 1];
        }
      }
    }
  }

  /** In a pinned store the only dependency cycles are nodes pinned to themselves. */
  lemma CyclesAreSelfPins(g: Graph, p: seq<NodeId>)
    requires Ranked(g) && IsPath(g, p) && Last(p) == p[0]
    ensures forall x :: x in p ==> x == p[0]
  {
    forall x | x in p
      ensures x == p[0]
    {
      var i :| 0 <= i < |p| && p[i] == x;
      TimeFallsAlongPath(g, p);
      var tail := p[i..];
      forall j | 0 <= j < |tail| - 1
        ensures Depends(g, tail[j], tail[j + 1])
      {
        assert Depends(g, p[i + j], p[i + j + 1]);
      }
      TimeFallsAlongPath(g, tail);
      assert tail[|tail| - 1] == p[0];
    }
  }

  // ---- when a record does not depend on the stack or the cache ---------------------------

  /** `u`, on which `x` depends, still names an older revision of `x`. */
  ghost predicate NamesBack(g: Graph, x: NodeId, u: NodeId) {
    && x != u && Reaches(g, x, u)
    && exists i :: 0 <= i < |AnchorsInForce(g, u)| && OutdatedAt(g, AnchorsInForce(g, u)[i], x)
  }

  predicate OutdatedAt(g: Graph, a: Anchor, x: NodeId) {
    NamesAt(a, x) && !DependsAt(g, a, x)
  }

  ghost predicate NoneNamesBack(g: Graph) {
    forall x, u :: !NamesBack(g, x, u)
  }

  /** Every node on the stack depends on `id`, perhaps through others. */
  ghost predicate Ancestors(g: Graph, stack: set<NodeId>, id: NodeId) {
    forall x :: x in stack ==> Reaches(g, x, id)
  }

  lemma AncestorsStep(g: Graph, stack: set<NodeId>, id: NodeId, ref: NodeId)
    requires Ancestors(g, stack, id) && Depends(g, id, ref)
    ensures Ancestors(g, stack + {ref}, ref)
  {
    ReachesSelf(g, ref);
    forall x | x in stack
      ensures Reaches(g, x, ref)
    {
      ReachesStep(g, x, id, ref);
    }
  }

  /** A node from which a path returns to the stack is degraded. */
  lemma {:induction false} ReturningPathDegrades(g: Graph, provider: Provider, p: seq<NodeId>, stack: set<NodeId>)
    requires IsPath(g, p) && |p| > 1 && Last(p) in stack
    ensures Evaluate(g, provider, p[0], stack).grade == Degraded
    decreases |p|
  {
    PathTail(g, p);
    var ref := p[1];
    var anchors := AnchorsInForce(g, p[0]);
    var i :| 0 <= i < |anchors| && DependsAt(g, anchors[i], ref);
    GradeOfStatus(g, provider, anchors[i], stack);
    if ref !in stack {
      ReturningPathDegrades(g, provider, p[1..], stack + {ref});
    }
    DegradedStatusDegrades(g, provider, p[0], stack, i);
  }

  lemma DegradedStatusDegrades(g: Graph, provider: Provider, id: NodeId, stack: set<NodeId>, i: nat)
    requires i < |AnchorsInForce(g, id)|
    requires AnchorStatus(g, provider, AnchorsInForce(g, id)[i], stack).grade == Degraded
    ensures Evaluate(g, provider, id, stack).grade == Degraded
  {
    var sources := AnchorStatuses(g, provider, AnchorsInForce(g, id), stack);
    assert Grades(sources)[i] == Degraded;
    CombineGood(Grades(sources));
  }

  lemma ReturningDegrades(g: Graph, provider: Provider, id: NodeId, target: NodeId, stack: set<NodeId>)
    requires Reaches(g, id, target) && target in stack && id != target
    ensures Evaluate(g, provider, id, stack).grade == Degraded
  {
    var p :| IsPath(g, p) && p[0] == id && Last(p) == target;
    ReturningPathDegrades(g, provider, p, stack);
  }

  /** The same grade always; the same whole record when the store is ranked. */
  ghost predicate Agree(g: Graph, a: Evaluated, b: Evaluated) {
    a.id == b.id && a.grade == b.grade && (Ranked(g) ==> a == b)
  }

  ghost predicate StatusesAgree(g: Graph, a: Status, b: Status) {
    a.grade == b.grade && (Ranked(g) ==> a == b)
  }

  /** Naming an ancestor is a dependency, and impossible in a ranked store. */
  lemma NamedAncestorIsFollowed(g: Graph, stack: set<NodeId>, id: NodeId, a: Anchor)
    requires NoneNamesBack(g) && Ancestors(g, stack, id) && a in AnchorsInForce(g, id)
    requires NamesOneOf(a, stack) && a.sourceRef.value != id
    ensures Follows(g, a) && Depends(g, id, a.sourceRef.value)
    ensures !Ranked(g)
  {
    var ref := a.sourceRef.value;
    var i :| 0 <= i < |AnchorsInForce(g, id)| && AnchorsInForce(g, id)[i] == a;
    assert Reaches(g, ref, id);
    assert OutdatedAt(g, AnchorsInForce(g, id)[i], ref) ==> NamesBack(g, ref, id);
    assert DependsAt(g, AnchorsInForce(g, id)[i], ref);
    NoCycleWhenRanked(g, id, ref);
  }

  lemma NoCycleWhenRanked(g: Graph, u: NodeId, v: NodeId)
    requires Depends(g, u, v) && u != v && Reaches(g, v, u)
    ensures !Ranked(g)
  {
    var p :| IsPath(g, p) && p[0] == v && Last(p) == u;
    if Ranked(g) {
      TimeFallsAlongPath(g, p);
    }
  }

  lemma {:induction false} StatusIndependent(g: Graph, provider: Provider, id: NodeId, a: Anchor, s1: set<NodeId>,
                                             s2: set<NodeId>)
    requires NoneNamesBack(g) && a in AnchorsInForce(g, id)
    requires id in s1 && id in s2 && Ancestors(g, s1, id) && Ancestors(g, s2, id)
    ensures StatusesAgree(g, AnchorStatus(g, provider, a, s1), AnchorStatus(g, provider, a, s2))
    decreases g.nodes.Keys - s1, 0
  {
    if a.kind.MemoryAnchor? && a.sourceRef.Some? {
      var ref := a.sourceRef.value;
      var i :| 0 <= i < |AnchorsInForce(g, id)| && AnchorsInForce(g, id)[i] == a;
      if ref !in s1 && ref !in s2 {
        if Follows(g, a) {
          assert DependsAt(g, AnchorsInForce(g, id)[i], ref);
          AncestorsStep(g, s1, id, ref);
          AncestorsStep(g, s2, id, ref);
          assert ref in g.nodes.Keys - s1 && ref !in g.nodes.Keys - (s1 + {ref});
          StackIndependent(g, provider, ref, s1 + {ref}, s2 + {ref});
        }
      } else if ref in s1 && ref !in s2 {
        NamedAncestorIsFollowed(g, s1, id, a);
        ReturningDegrades(g, provider, ref, id, s2 + {ref});
      } else if ref in s2 && ref !in s1 {
        NamedAncestorIsFollowed(g, s2, id, a);
        ReturningDegrades(g, provider, ref, id, s1 + {ref});
      }
    }
  }

  /** Without such back references the walk from a node does not depend on how it was reached. */
  lemma {:induction false} StackIndependent(g: Graph, provider: Provider, id: NodeId, s1: set<NodeId>, s2: set<NodeId>)
    requires NoneNamesBack(g)
    requires id in s1 && id in s2 && Ancestors(g, s1, id) && Ancestors(g, s2, id)
    ensures Agree(g, Evaluate(g, provider, id, s1), Evaluate(g, provider, id, s2))
    decreases g.nodes.Keys - s1, 1
  {
    var anchors := AnchorsInForce(g, id);
    var ss1, ss2 := AnchorStatuses(g, provider, anchors, s1), AnchorStatuses(g, provider, anchors, s2);
    forall i | 0 <= i < |anchors|
      ensures StatusesAgree(g, ss1[i], ss2[i])
    {
      StatusIndependent(g, provider, id, anchors[i], s1, s2);
    }
    assert Grades(ss1) == Grades(ss2);
    if Ranked(g) {
      assert ss1 == ss2;
    }
  }

  /** The record of a node on its own. */
  function Alone(g: Graph, provider: Provider, id: NodeId): Evaluated {
    Evaluate(g, provider, id, {id})
  }

  /** On a pinned store, what the walk computes for a node is the same however it is reached exactly when
      no node names an older revision of a node that depends on it. */
  lemma RecordsAreCacheableIff(g: Graph, provider: Provider)
    requires Ranked(g)
    requires forall u, v :: Names(g, u, v) ==> v in g.nodes
    ensures NoneNamesBack(g) <==>
            forall p :: IsPath(g, p) ==> Evaluate(g, provider, Last(p), NodesOf(p)) == Alone(g, provider, Last(p))
  {
    if NoneNamesBack(g) {
      forall p | IsPath(g, p)
        ensures Evaluate(g, provider, Last(p), NodesOf(p)) == Alone(g, provider, Last(p))
      {
        PathNodesAreAncestors(g, p);
        ReachesSelf(g, Last(p));
        StackIndependent(g, provider, Last(p), NodesOf(p), {Last(p)});
      }
    } else {
      var x, u :| NamesBack(g, x, u);
      var p :| IsPath(g, p) && p[0] == x && Last(p) == u;
      var i :| 0 <= i < |AnchorsInForce(g, u)| && OutdatedAt(g, AnchorsInForce(g, u)[i], x);
      assert NamesAt(AnchorsInForce(g, u)[i], x);
      assert Names(g, u, x);
      BackReferenceShows(g, provider, p);
    }
  }

  lemma BackReferenceShows(g: Graph, provider: Provider, p: seq<NodeId>)
    requires IsPath(g, p) && NamesBack(g, p[0], Last(p)) && p[0] in g.nodes
    ensures Evaluate(g, provider, Last(p), NodesOf(p)) != Alone(g, provider, Last(p))
  {
    var anchors := AnchorsInForce(g, Last(p));
    var i :| 0 <= i < |anchors| && OutdatedAt(g, anchors[i], p[0]);
    OutdatedStatuses(g, provider, anchors[i], p[0], NodesOf(p), Last(p));
    DifferentSources(g, provider, Last(p), NodesOf(p), {Last(p)}, i);
  }

  lemma OutdatedStatuses(g: Graph, provider: Provider, a: Anchor, x: NodeId, stack: set<NodeId>, last: NodeId)
    requires OutdatedAt(g, a, x) && x in stack && x != last
    ensures AnchorStatus(g, provider, a, stack) == OnStack(x)
    ensures AnchorStatus(g, provider, a, {last}) == MemoryStatus(g, a, Unbound)
  {
  }

  lemma DifferentSources(g: Graph, provider: Provider, id: NodeId, stack: set<NodeId>, other: set<NodeId>, i: nat)
    requires i < |AnchorsInForce(g, id)|
    requires AnchorStatus(g, provider, AnchorsInForce(g, id)[i], stack)
             != AnchorStatus(g, provider, AnchorsInForce(g, id)[i], other)
    ensures Evaluate(g, provider, id, stack) != Evaluate(g, provider, id, other)
  {
    var anchors := AnchorsInForce(g, id);
    assert AnchorStatuses(g, provider, anchors, stack)[i] != AnchorStatuses(g, provider, anchors, other)[i];
  }

  lemma {:induction false} PathNodesAreAncestors(g: Graph, p: seq<NodeId>)
    requires IsPath(g, p)
    ensures Ancestors(g, NodesOf(p), Last(p))
    decreases |p|
  {
    forall x | x in NodesOf(p)
      ensures Reaches(g, x, Last(p))
    {
      var i :| 0 <= i < |p| && p[i] == x;
      var q := p[i..];
      forall j | 0 <= j < |q| - 1
        ensures Depends(g, q[j], q[j + 1])
      {
        assert Depends(g, p[i + j], p[i + j + 1]);
      }
      assert IsPath(g, q) && q[0] == x && Last(q) == Last(p);
    }
  }

  // ---- the shared cache ------------------------------------------------------------------

  ghost predicate CacheAgrees(g: Graph, provider: Provider, cache: Cache) {
    forall id :: id in cache ==> Agree(g, cache[id], Alone(g, provider, id))
  }

  lemma {:induction false} CachedStatusAgrees(g: Graph, provider: Provider, id: NodeId, a: Anchor, stack: set<NodeId>,
                                              cache: Cache)
    requires NoneNamesBack(g) && CacheAgrees(g, provider, cache) && a in AnchorsInForce(g, id)
    requires id in stack && Ancestors(g, stack, id)
    ensures var (s, cache1) := AnchorStatusCached(g, provider, a, stack, cache);
            StatusesAgree(g, s, AnchorStatus(g, provider, a, stack)) && CacheAgrees(g, provider, cache1)
    decreases g.nodes.Keys - stack, 0, 0
  {
    if a.kind.MemoryAnchor? && a.sourceRef.Some? && a.sourceRef.value !in stack && Follows(g, a) {
      var ref := a.sourceRef.value;
      var i :| 0 <= i < |AnchorsInForce(g, id)| && AnchorsInForce(g, id)[i] == a;
      assert DependsAt(g, AnchorsInForce(g, id)[i], ref);
      AncestorsStep(g, stack, id, ref);
      assert ref in g.nodes.Keys - stack && ref !in g.nodes.Keys - (stack + {ref});
      CachedNodeAgrees(g, provider, ref, stack + {ref}, cache);
      ReachesSelf(g, ref);
      StackIndependent(g, provider, ref, stack + {ref}, {ref});
    }
  }

  lemma {:induction false} CachedStatusesAgree(g: Graph, provider: Provider, id: NodeId, anchors: seq<Anchor>,
                                               stack: set<NodeId>, cache: Cache)
    requires NoneNamesBack(g) && CacheAgrees(g, provider, cache)
    requires forall a :: a in anchors ==> a in AnchorsInForce(g, id)
    requires id in stack && Ancestors(g, stack, id)
    ensures var (ss, cache1) := AnchorStatusesCached(g, provider, anchors, stack, cache);
            && CacheAgrees(g, provider, cache1)
            && forall i :: 0 <= i < |anchors| ==> StatusesAgree(g, ss[i], AnchorStatus(g, provider, anchors[i], stack))
    decreases g.nodes.Keys - stack, 1, |anchors|
  {
    if anchors != [] {
      CachedStatusAgrees(g, provider, id, anchors[0], stack, cache);
      var (first, cache1) := AnchorStatusCached(g, provider, anchors[0], stack, cache);
      CachedStatusesAgree(g, provider, id, anchors[1..], stack, cache1);
    }
  }

  lemma {:induction false} CachedNodeAgrees(g: Graph, provider: Provider, id: NodeId, stack: set<NodeId>, cache: Cache)
    requires NoneNamesBack(g) && CacheAgrees(g, provider, cache)
    requires id in stack && Ancestors(g, stack, id)
    ensures var (out, cache1) := EvaluateCached(g, provider, id, stack, cache);
            Agree(g, out, Alone(g, provider, id)) && CacheAgrees(g, provider, cache1)
    decreases g.nodes.Keys - stack, 2, 0
  {
    if id !in cache {
      CachedStatusesAgree(g, provider, id, AnchorsInForce(g, id), stack, cache);
      CachedRecordAgrees(g, provider, id, stack, cache);
      ReachesSelf(g, id);
      StackIndependent(g, provider, id, stack, {id});
      var (out, cache2) := EvaluateCached(g, provider, id, stack, cache);
      AddToCache(g, provider, AnchorStatusesCached(g, provider, AnchorsInForce(g, id), stack, cache).1, id, out);
    }
  }

  lemma AddToCache(g: Graph, provider: Provider, cache: Cache, id: NodeId, out: Evaluated)
    requires CacheAgrees(g, provider, cache) && Agree(g, out, Alone(g, provider, id))
    ensures CacheAgrees(g, provider, cache[id := out])
  {
  }

  lemma CachedRecordAgrees(g: Graph, provider: Provider, id: NodeId, stack: set<NodeId>, cache: Cache)
    requires id !in cache
    requires var (ss, cache1) := AnchorStatusesCached(g, provider, AnchorsInForce(g, id), stack, cache);
             forall i :: 0 <= i < |ss| ==>
                           StatusesAgree(g, ss[i], AnchorStatus(g, provider, AnchorsInForce(g, id)[i], stack))
    ensures var (out, cache2) := EvaluateCached(g, provider, id, stack, cache);
            && Agree(g, out, Evaluate(g, provider, id, stack))
            && cache2 == AnchorStatusesCached(g, provider, AnchorsInForce(g, id), stack, cache).1[id := out]
  {
    var anchors := AnchorsInForce(g, id);
    var ss := AnchorStatusesCached(g, provider, anchors, stack, cache).0;
    var plain := AnchorStatuses(g, provider, anchors, stack);
    assert Grades(ss) == Grades(plain);
    assert Ranked(g) ==> ss == plain;
  }

  /** With one shared cache and in any order, every projected node gets the grade it gets on its own, on every
      store without such back references; on pinned stores it gets the very same record. */
  lemma {:induction false} ProjectionAgrees(g: Graph, provider: Provider, ids: seq<NodeId>, cache: Cache)
    requires NoneNamesBack(g) && CacheAgrees(g, provider, cache)
    ensures var (records, cache1) := Project(g, provider, ids, cache);
            && CacheAgrees(g, provider, cache1)
            && forall i :: 0 <= i < |ids| ==> Agree(g, records[i], Alone(g, provider, ids[i]))
    decreases |ids|
  {
    if ids != [] {
      ReachesSelf(g, ids[0]);
      CachedNodeAgrees(g, provider, ids[0], {ids[0]}, cache);
      var (first, cache1) := EvaluateCached(g, provider, ids[0], {ids[0]}, cache);
      ProjectionAgrees(g, provider, ids[1..], cache1);
      var (rest, cache2) := Project(g, provider, ids[1..], cache1);
      var records := [first] + rest;
      assert Project(g, provider, ids, cache) == (records, cache2);
      forall i | 0 <= i < |ids|
        ensures Agree(g, records[i], Alone(g, provider, ids[i]))
      {
        if i > 0 {
          assert records[i] == rest[i - 1] && ids[i] == ids[1..][i - 1];
        }
      }
    }
  }

  /** In a pinned store without back references, only a node naming itself is ever reported as a cycle. */
  lemma CycleReportsAreSelfReferences(g: Graph, provider: Provider, p: seq<NodeId>, i: nat)
    requires Ranked(g) && NoneNamesBack(g) && IsPath(g, p) && i < |AnchorsInForce(g, Last(p))|
    requires AnchorStatus(g, provider, AnchorsInForce(g, Last(p))[i], NodesOf(p)).reason == DependencyCycle
    ensures AnchorsInForce(g, Last(p))[i].sourceRef == Some(Last(p))
  {
    var a := AnchorsInForce(g, Last(p))[i];
    PathNodesAreAncestors(g, p);
    GradeOfStatus(g, provider, a, NodesOf(p));
    assert NamesOneOf(a, NodesOf(p));
    if a.sourceRef.value != Last(p) {
      NamedAncestorIsFollowed(g, NodesOf(p), Last(p), a);
    }
  }
}
