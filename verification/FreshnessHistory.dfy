/** Freshness over the stores that histories really produce: pinned histories give ranked stores, and two
    such histories show what sharing the cache can still do to a node's freshness and to its trust. */
module FreshnessHistory {
  import opened Prelude
  import opened MemoryGraph
  import opened MemoryHistory
  import opened MemoryInvariants
  import opened Freshness
  import opened FreshnessProofs

  // ---- supports written by Main ----------------------------------------------------------

  /** A support, with references already resolved. `aliased` marks a node created by the same delta. */
  datatype Support =
    | RequestSupport
    | MemorySupport(target: NodeId, aliased: bool, requested: Option<int>)
    | RelationSupport(relation: EdgeId, asked: Option<int>)
    | MaterialSupport(evidence: string, material: Material)

  const NO_MATERIAL := Material("", "{}", "", "", "", "{}")

  function SupportAnchor(g: Graph, executionId: string, support: Support): Result<AnchorInput, Error> {
    match support
    case RequestSupport => Ok(AnchorInput(Some(RequestAnchor), executionId, Absent, NO_MATERIAL))
    case MemorySupport(target, aliased, requested) =>
      if target !in g.nodes && !aliased then Err(NodeNotFound)
      else
        var current := if target in g.nodes then g.nodes[target].revision else 1;
        Ok(AnchorInput(Some(MemoryAnchor), target, Given(if requested.Some? then requested.value else current),
                       NO_MATERIAL))
    case RelationSupport(relation, asked) =>
      if relation !in g.edges then Err(EdgeNotFound)
      else
        Ok(AnchorInput(Some(RelationAnchor), relation,
                       Given(if asked.Some? then asked.value else g.edges[relation].revision), NO_MATERIAL))
    case MaterialSupport(evidence, material) =>
      Ok(AnchorInput(Some(MaterialAnchor), evidence, Absent, material))
  }

  function SupportAnchors(g: Graph, executionId: string, supports: seq<Support>): (r: Result<seq<AnchorInput>, Error>)
    ensures r.Ok? ==> |r.value| == |supports| && PinnedInputs(r.value)
  {
    if supports == [] then Ok([])
    else
      var first :- SupportAnchor(g, executionId, supports[0]);
      var rest :- SupportAnchors(g, executionId, supports[1..]);
      Ok([first] + rest)
  }

  // ---- pinned histories ------------------------------------------------------------------

  predicate PinnedInputs(raws: seq<AnchorInput>) {
    forall raw :: raw in raws && raw.kind == Some(MemoryAnchor) ==> raw.sourceRevision.Given?
  }

  function AnchorsOf(op: Operation): seq<AnchorInput> {
    if op.CreateNode? || op.UpdateNode? || op.CreateEdge? || op.UpdateEdge? then op.anchors else []
  }

  ghost predicate PinnedHistory(history: seq<Changeset>) {
    forall change, op :: change in history && op in change.operations ==> PinnedInputs(AnchorsOf(op))
  }

  lemma {:induction false} StoreAnchorsPinned(g: Graph, entity: Entity, id: string, revision: nat,
                                              raws: seq<AnchorInput>)
    requires AllPinned(g) && PinnedInputs(raws)
    ensures var r := StoreAnchors(g, entity, id, revision, raws);
            r.Ok? ==> AllPinned(r.value)
    decreases |raws|
  {
    if raws != [] && CheckAnchor(g, entity, id, revision, raws[0]).Ok? {
      assert raws[0] in raws;
      StoreAnchorsPinned(g.(anchors := g.anchors + [CheckAnchor(g, entity, id, revision, raws[0]).value]),
                         entity, id, revision, raws[1..]);
    }
  }

  lemma WriteNodePinned(g: Graph, id: NodeId, row: NodeRow, tags: TagSet, raws: seq<AnchorInput>, opens: bool,
                        payload: Payload, at: nat)
    requires AllPinned(g) && PinnedInputs(raws)
    ensures var r := WriteNode(g, id, row, tags, raws, opens, payload, at);
            r.Ok? ==> AllPinned(r.value)
  {
    StoreAnchorsPinned(g.(nodes := g.nodes[id := row], tags := g.tags[id := tags]), NodeEntity, id, row.revision, raws);
  }

  lemma WriteEdgePinned(g: Graph, id: EdgeId, row: EdgeRow, raws: seq<AnchorInput>, payload: Payload, at: nat)
    requires AllPinned(g) && PinnedInputs(raws)
    ensures var r := WriteEdge(g, id, row, raws, payload, at);
            r.Ok? ==> AllPinned(r.value)
  {
    StoreAnchorsPinned(g.(edges := g.edges[id := row]), EdgeEntity, id, row.revision, raws);
  }

  lemma NodeOperationPinned(g: Graph, op: Operation, at: nat)
    requires AllPinned(g) && PinnedInputs(AnchorsOf(op)) && (op.CreateNode? || op.UpdateNode?)
    ensures Apply(g, op, at).Ok? ==> AllPinned(Apply(g, op, at).value)
  {
    if Apply(g, op, at).Ok? {
      if op.CreateNode? {
        var row, tags := NewNodeRow(op, at).value, CleanTags(op.tags);
        WriteNodePinned(g, op.id, row, AddTags(map[], tags), op.anchors, row.kind == "task", CreationOf(row, tags), at);
      } else {
        var id := FindCurrentNode(g, op.id, op.expected).value;
        var row := RevisedNodeRow(g.nodes[id], id in g.tasks, op, at).value;
        var added, removed := CleanTags(op.addTags), CleanTags(op.removeTags);
        WriteNodePinned(g, id, row, RemoveTags(AddTags(TagsOf(g, id), added), removed), op.anchors,
                        row.kind == "task" && id !in g.tasks, RevisionOf(row, added, removed), at);
      }
    }
  }

  lemma EdgeOperationPinned(g: Graph, op: Operation, at: nat)
    requires AllPinned(g) && PinnedInputs(AnchorsOf(op)) && (op.CreateEdge? || op.UpdateEdge? || op.RetireEdge?)
    ensures Apply(g, op, at).Ok? ==> AllPinned(Apply(g, op, at).value)
  {
    if Apply(g, op, at).Ok? {
      if op.CreateEdge? {
        var source := CleanText(op.source, "SOURCE", Some(120)).value;
        var target := CleanText(op.target, "TARGET", Some(120)).value;
        var relation := CleanText(op.relation, "RELATION", Some(120)).value;
        var epistemic := op.epistemic.Or(RELATION, EpistemicInvalid).value;
        WriteEdgePinned(g, op.id,
                        EdgeRow(source, relation, target, epistemic, Evidenced(op.anchors, at, None), Live, 1),
                        op.anchors, EdgeCreated(source, relation, target, Some(epistemic)), at);
      } else {
        var id := FindCurrentEdge(g, op.id, op.expected).value;
        var row := g.edges[id];
        if op.UpdateEdge? {
          var relation := Keep(op.relation, row.relation);
          var epistemic := op.epistemic.Or(row.epistemic, EpistemicInvalid).value;
          WriteEdgePinned(g, id, row.(relation := relation, epistemic := epistemic,
                                      evidenced := Evidenced(op.anchors, at, row.evidenced),
                                      revision := row.revision + 1),
                          op.anchors, EdgeUpdated(relation, epistemic), at);
        }
      }
    }
  }

  lemma ApplyPinned(g: Graph, op: Operation, at: nat)
    requires AllPinned(g) && PinnedInputs(AnchorsOf(op))
    ensures Apply(g, op, at).Ok? ==> AllPinned(Apply(g, op, at).value)
  {
    if op.CreateNode? || op.UpdateNode? {
      NodeOperationPinned(g, op, at);
    } else if op.CreateEdge? || op.UpdateEdge? || op.RetireEdge? {
      EdgeOperationPinned(g, op, at);
    }
  }

  lemma {:induction false} ApplyAllPinned(g: Graph, ops: seq<Operation>, at: nat)
    requires AllPinned(g) && forall op :: op in ops ==> PinnedInputs(AnchorsOf(op))
    ensures ApplyAll(g, ops, at).Ok? ==> AllPinned(ApplyAll(g, ops, at).value)
    decreases |ops|
  {
    if ops != [] {
      assert ops[0] in ops;
      ApplyPinned(g, ops[0], at);
      if Apply(g, ops[0], at).Ok? {
        ApplyAllPinned(Apply(g, ops[0], at).value, ops[1..], at);
      }
    }
  }

  lemma {:induction false} RunPinned(history: seq<Changeset>)
    requires PinnedHistory(history)
    ensures AllPinned(Run(history))
  {
    if history != [] {
      var before, change := history[..|history| - 1], history[|history| - 1];
      RunPinned(before);
      assert change in history;
      ApplyAllPinned(Run(before), change.operations, change.at);
    }
  }

  /** In a store whose pins hold and whose memory anchors are pinned, every named node exists. */
  lemma NamedNodesExist(g: Graph)
    requires PinsHold(g) && AllPinned(g)
    ensures forall u, v :: Names(g, u, v) ==> v in g.nodes
  {
    forall u, v | Names(g, u, v)
      ensures v in g.nodes
    {
      var i :| 0 <= i < |AnchorsInForce(g, u)| && NamesAt(AnchorsInForce(g, u)[i], v);
      var k :| 0 <= k < |g.anchors| && g.anchors[k] == AnchorsInForce(g, u)[i];
      assert PinHolds(g, g.anchors[k]);
    }
  }

  /** After any pinned history, dependencies between distinct nodes point strictly back in time, every named
      node exists, and a dependency cycle is a node pinned to itself. */
  lemma PinnedHistoryIsRanked(history: seq<Changeset>)
    requires PinnedHistory(history)
    ensures Ranked(Run(history))
    ensures forall u, v :: Names(Run(history), u, v) ==> v in Run(history).nodes
    ensures forall p :: IsPath(Run(history), p) && Last(p) == p[0] ==> forall x :: x in p ==> x == p[0]
  {
    var g := Run(history);
    RunIsValid(history);
    RunPinned(history);
    PinnedStoreIsRanked(g);
    NamedNodesExist(g);
    forall p | IsPath(g, p) && Last(p) == p[0]
      ensures forall x :: x in p ==> x == p[0]
    {
      CyclesAreSelfPins(g, p);
    }
  }

  // ---- a pinned history on which the shared cache matters --------------------------------

  function Pin(ref: string, revision: int): AnchorInput {
    AnchorInput(Some(MemoryAnchor), ref, Given(revision), NO_MATERIAL)
  }

  function Remember(id: string, anchors: seq<AnchorInput>): Operation {
    CreateNode(id, "s", Absent, Absent, "k", "c", Absent, Absent, Absent, [], anchors)
  }

  function Revise(id: string, expected: int, anchors: seq<AnchorInput>): Operation {
    UpdateNode(id, Some(expected), "", "", Absent, Absent, Absent, Absent, Absent, [], [], anchors)
  }

  /** B is remembered on A's first revision; then A is revised on the strength of B. */
  function BackAndForth(): seq<Changeset> {
    [Changeset([Remember("mem-a", [])], 1),
     Changeset([Remember("mem-b", [Pin("mem-a", 1)])], 2),
     Changeset([Revise("mem-a", 1, [Pin("mem-b", 1)])], 3)]
  }

  function RowA(): NodeRow {
    NodeRow("s", Knowledge, None, "k", "c", Persistent, UNCLASSIFIED, NO_RECALL, None, Current, 1)
  }

  function StoreA(): Graph {
    Graph(map["mem-a" := RowA()], map["mem-a" := map[]], map[], map[], [],
          [Event("mem-a", 1, CreationOf(RowA(), []), 1)])
  }

  function AnchorB(): Anchor {
    Anchor(NodeEntity, "mem-b", 1, MemoryAnchor, Some("mem-a"), Some(1), NO_MATERIAL)
  }

  function AnchorA(): Anchor {
    Anchor(NodeEntity, "mem-a", 2, MemoryAnchor, Some("mem-b"), Some(1), NO_MATERIAL)
  }

  lemma PlainTexts()
    ensures Strip("s") == "s" && Strip("k") == "k" && Strip("c") == "c" && Strip("") == ""
    ensures Strip("mem-a") == "mem-a" && Strip("mem-b") == "mem-b"
    ensures IsId("mem-", "mem-a") && IsId("mem-", "mem-b")
  {
    assert StripLeft("mem-a") == "mem-a" && StripRight("mem-a") == "mem-a";
    assert StripLeft("mem-b") == "mem-b" && StripRight("mem-b") == "mem-b";
    assert StripLeft("s") == "s" && StripLeft("k") == "k" && StripLeft("c") == "c";
  }

  function StoreB(): Graph {
    Graph(map["mem-a" := RowA(), "mem-b" := RowA().(evidenced := Some(2))],
          map["mem-a" := map[], "mem-b" := map[]], map[], map[], [AnchorB()],
          StoreA().log + [Event("mem-b", 1, CreationOf(RowA(), []), 2)])
  }

  function StoreC(): Graph {
    StoreB().(nodes := StoreB().nodes["mem-a" := RowA().(evidenced := Some(3), revision := 2)],
              anchors := [AnchorB(), AnchorA()],
              log := StoreB().log + [Event("mem-a", 2, RevisionOf(RowA(), [], []), 3)])
  }

  lemma FirstStore()
    ensures Apply(EMPTY, Remember("mem-a", []), 1) == Ok(StoreA())
  {
    PlainTexts();
    assert NewNodeRow(Remember("mem-a", []), 1) == Ok(RowA());
    assert EMPTY.nodes["mem-a" := RowA()] == StoreA().nodes;
    assert EMPTY.tags["mem-a" := map[]] == StoreA().tags;
    assert EMPTY.log + [Event("mem-a", 1, CreationOf(RowA(), []), 1)] == StoreA().log;
  }

  /** A pin on the current revision of a stored node is accepted. */
  lemma CurrentPinChecks(g: Graph, id: NodeId, own: nat, ref: NodeId, revision: nat)
    requires ref in g.nodes && g.nodes[ref].revision == revision >= 1 && Strip(ref) == ref && IsId("mem-", ref)
    ensures CheckAnchor(g, NodeEntity, id, own, Pin(ref, revision))
            == Ok(Anchor(NodeEntity, id, own, MemoryAnchor, Some(ref), Some(revision), NO_MATERIAL))
  {
  }

  /** Storing a single pin on the current revision of a node adds its anchor. */
  lemma OnePinStores(g: Graph, id: NodeId, own: nat, ref: NodeId, revision: nat)
    requires ref in g.nodes && g.nodes[ref].revision == revision >= 1 && Strip(ref) == ref && IsId("mem-", ref)
    ensures var a := Anchor(NodeEntity, id, own, MemoryAnchor, Some(ref), Some(revision), NO_MATERIAL);
            StoreAnchors(g, NodeEntity, id, own, [Pin(ref, revision)]) == Ok(g.(anchors := g.anchors + [a]))
  {
    CurrentPinChecks(g, id, own, ref, revision);
    assert [Pin(ref, revision)][1..] == [];
  }

  lemma SecondStore()
    ensures Apply(StoreA(), Remember("mem-b", [Pin("mem-a", 1)]), 2) == Ok(StoreB())
  {
    PlainTexts();
    var op, row := Remember("mem-b", [Pin("mem-a", 1)]), RowA().(evidenced := Some(2));
    assert NewNodeRow(op, 2) == Ok(row);
    var g1 := StoreA().(nodes := StoreB().nodes, tags := StoreB().tags);
    assert StoreA().nodes["mem-b" := row] == StoreB().nodes && StoreA().tags["mem-b" := map[]] == StoreB().tags;
    OnePinStores(g1, "mem-b", 1, "mem-a", 1);
    assert g1.anchors + [AnchorB()] == [AnchorB()];
  }

  lemma ThirdStore()
    ensures Apply(StoreB(), Revise("mem-a", 1, [Pin("mem-b", 1)]), 3) == Ok(StoreC())
  {
    PlainTexts();
    var op, row := Revise("mem-a", 1, [Pin("mem-b", 1)]), RowA().(evidenced := Some(3), revision := 2);
    assert RevisedNodeRow(RowA(), false, op, 3) == Ok(row);
    var g1 := StoreB().(nodes := StoreC().nodes);
    assert StoreB().tags["mem-a" := map[]] == StoreB().tags;
    OnePinStores(g1, "mem-a", 2, "mem-b", 1);
    assert g1.anchors + [AnchorA()] == StoreC().anchors;
  }

  lemma OneOperation(g: Graph, op: Operation, at: nat)
    requires Apply(g, op, at).Ok?
    ensures Commit(g, Changeset([op], at)) == Apply(g, op, at).value
  {
    assert [op][1..] == [] && [op][0] == op;
    assert ApplyAll(Apply(g, op, at).value, [], at) == Apply(g, op, at);
    assert ApplyAll(g, [op], at) == Apply(g, op, at);
  }

  lemma RunOfThree(a: Changeset, b: Changeset, c: Changeset)
    ensures Run([a, b, c]) == Commit(Commit(Commit(EMPTY, a), b), c)
  {
    RunAppend([], a);
    RunAppend([a], b);
    RunAppend([a, b], c);
    assert [] + [a] == [a] && [a] + [b] == [a, b] && [a, b] + [c] == [a, b, c];
  }

  lemma BackAndForthStore()
    ensures Run(BackAndForth()) == StoreC()
  {
    var history := BackAndForth();
    FirstStore();
    SecondStore();
    ThirdStore();
    OneOperation(EMPTY, Remember("mem-a", []), 1);
    OneOperation(StoreA(), Remember("mem-b", [Pin("mem-a", 1)]), 2);
    OneOperation(StoreB(), Revise("mem-a", 1, [Pin("mem-b", 1)]), 3);
    RunOfThree(history[0], history[1], history[2]);
  }

  lemma BackAndForthIsPinned()
    ensures PinnedHistory(BackAndForth())
  {
  }

  lemma AnchorsOfStoreC()
    ensures AnchorsInForce(StoreC(), "mem-a") == [AnchorA()]
    ensures AnchorsInForce(StoreC(), "mem-b") == [AnchorB()]
  {
    assert StoreC().anchors[1..] == [AnchorA()] && [AnchorA()][1..] == [];
  }

  /** On that history the freshness of B depends on the order of the projection: asked first, B rests on an
      older revision and is semantic; asked after A, it is reported as a dependency cycle and degraded. */
  lemma ProjectionOrderCanMatter(provider: Provider)
    ensures var g := Run(BackAndForth());
            && PinnedHistory(BackAndForth()) && Ranked(g) && !NoneNamesBack(g)
            && Project(g, provider, ["mem-b", "mem-a"], map[]).0[0].grade == Semantic
            && Project(g, provider, ["mem-a", "mem-b"], map[]).0[1].grade == Degraded
  {
    var g := StoreC();
    BackAndForthStore();
    BackAndForthIsPinned();
    PinnedHistoryIsRanked(BackAndForth());
    AnchorsOfStoreC();
    StoreCNamesBack();
    BFirst(provider);
    AFirst(provider);
  }

  lemma StoreCNamesBack()
    ensures NamesBack(StoreC(), "mem-a", "mem-b")
  {
    var g := StoreC();
    AnchorsOfStoreC();
    BNamesA();
    assert DependsAt(g, AnchorsInForce(g, "mem-a")[0], "mem-b");
    assert IsPath(g, ["mem-a", "mem-b"]) && Last(["mem-a", "mem-b"]) == "mem-b";
  }

  lemma SingleStatus(g: Graph, provider: Provider, a: Anchor, stack: set<NodeId>, cache: Cache)
    ensures var (s, cache1) := AnchorStatusCached(g, provider, a, stack, cache);
            AnchorStatusesCached(g, provider, [a], stack, cache) == ([s], cache1)
    ensures var s := AnchorStatusCached(g, provider, a, stack, cache).0;
            Combine(Grades([s])) == if s.grade == Unbound then Fresh else s.grade
  {
    assert [a][1..] == [];
    var (s, cache1) := AnchorStatusCached(g, provider, a, stack, cache);
    assert [s] + [] == [s];
    assert Grades([s]) == [s.grade];
    CombineOne(s.grade);
  }

  lemma CombineOne(v: Grade)
    ensures Combine([v]) == if v == Unbound then Fresh else v
  {
    assert v in [v];
  }

  /** Off the stack, an older revision makes the record of the node that names it semantic. */
  lemma OutdatedIsSemantic(g: Graph, provider: Provider, b: NodeId, a: NodeId, stack: set<NodeId>)
    requires |AnchorsInForce(g, b)| == 1 && OutdatedAt(g, AnchorsInForce(g, b)[0], a) && a in g.nodes && a !in stack
    ensures var (out, cache) := EvaluateCached(g, provider, b, stack, map[]);
            out.grade == Semantic && cache == map[b := out]
  {
    var bOnA := AnchorsInForce(g, b)[0];
    assert AnchorsInForce(g, b) == [bOnA];
    SingleStatus(g, provider, bOnA, stack, map[]);
  }

  lemma BNamesA()
    ensures var g := StoreC();
            && "mem-a" in g.nodes && |AnchorsInForce(g, "mem-b")| == 1
            && OutdatedAt(g, AnchorsInForce(g, "mem-b")[0], "mem-a")
  {
    AnchorsOfStoreC();
  }

  lemma BFirst(provider: Provider)
    ensures Project(StoreC(), provider, ["mem-b", "mem-a"], map[]).0[0].grade == Semantic
  {
    BNamesA();
    OutdatedIsSemantic(StoreC(), provider, "mem-b", "mem-a", {"mem-b"});
  }

  lemma AFirst(provider: Provider)
    ensures Project(StoreC(), provider, ["mem-a", "mem-b"], map[]).0[1].grade == Degraded
  {
    var g := StoreC();
    AnchorsOfStoreC();
    SingleStatus(g, provider, AnchorB(), {"mem-a"} + {"mem-b"}, map[]);
    SingleStatus(g, provider, AnchorA(), {"mem-a"}, map[]);
    var (b, cache) := EvaluateCached(g, provider, "mem-b", {"mem-a"} + {"mem-b"}, map[]);
    assert b.grade == Degraded && cache == map["mem-b" := b];
    assert "mem-b" in EvaluateCached(g, provider, "mem-a", {"mem-a"}, map[]).1;
    assert ["mem-a", "mem-b"][1..] == ["mem-b"];
  }

  // ---- a pinned history on which a single projected node is trusted in trouble ------------

  /** X is remembered on B and on A, in that order. */
  function RestOnBoth(): Operation {
    Remember("mem-x", [Pin("mem-b", 1), Pin("mem-a", 2)])
  }

  function ThenBoth(): seq<Changeset> {
    BackAndForth() + [Changeset([RestOnBoth()], 4)]
  }

  function AnchorX(ref: NodeId, revision: nat): Anchor {
    Anchor(NodeEntity, "mem-x", 1, MemoryAnchor, Some(ref), Some(revision), NO_MATERIAL)
  }

  function StoreD(): Graph {
    Graph(StoreC().nodes["mem-x" := RowA().(evidenced := Some(4))], StoreC().tags["mem-x" := map[]], map[], map[],
          [AnchorB(), AnchorA(), AnchorX("mem-b", 1), AnchorX("mem-a", 2)],
          StoreC().log + [Event("mem-x", 1, CreationOf(RowA(), []), 4)])
  }

  lemma XIsPlain()
    ensures Strip("mem-x") == "mem-x" && IsId("mem-", "mem-x")
  {
    assert StripLeft("mem-x") == "mem-x" && StripRight("mem-x") == "mem-x";
  }

  /** The node row of X is written before its anchors are checked. */
  function WithX(anchors: seq<Anchor>): Graph {
    StoreC().(nodes := StoreD().nodes, tags := StoreD().tags, anchors := anchors)
  }

  lemma XAnchorsStored()
    ensures StoreAnchors(WithX(StoreC().anchors), NodeEntity, "mem-x", 1, RestOnBoth().anchors)
            == Ok(WithX(StoreD().anchors))
  {
    var first, second := Pin("mem-b", 1), Pin("mem-a", 2);
    var g1 := WithX(StoreC().anchors);
    var g2 := WithX(StoreC().anchors + [AnchorX("mem-b", 1)]);
    PlainTexts();
    NodesOfStoreD();
    CurrentPinChecks(g1, "mem-x", 1, "mem-b", 1);
    CurrentPinChecks(g2, "mem-x", 1, "mem-a", 2);
    assert [first, second][1..] == [second] && [second][1..] == [];
    assert g2.anchors + [AnchorX("mem-a", 2)] == StoreD().anchors;
    assert StoreAnchors(g2, NodeEntity, "mem-x", 1, [second]) == Ok(WithX(StoreD().anchors));
    assert StoreAnchors(g1, NodeEntity, "mem-x", 1, [first, second])
           == StoreAnchors(g2, NodeEntity, "mem-x", 1, [first, second][1..]);
  }

  lemma FourthStore()
    ensures Apply(StoreC(), RestOnBoth(), 4) == Ok(StoreD())
  {
    PlainTexts();
    XIsPlain();
    assert NewNodeRow(RestOnBoth(), 4) == Ok(RowA().(evidenced := Some(4)));
    XAnchorsStored();
  }

  lemma ThenBothStore()
    ensures Run(ThenBoth()) == StoreD()
  {
    BackAndForthStore();
    FourthStore();
    OneOperation(StoreC(), RestOnBoth(), 4);
    RunLast(BackAndForth(), Changeset([RestOnBoth()], 4));
  }

  lemma RunLast(history: seq<Changeset>, last: Changeset)
    ensures Run(history + [last]) == Commit(Run(history), last)
    ensures PinnedHistory(history) && (forall op :: op in last.operations ==> PinnedInputs(AnchorsOf(op)))
            ==> PinnedHistory(history + [last])
  {
    RunAppend(history, last);
  }

  lemma ThenBothIsPinned()
    ensures PinnedHistory(ThenBoth())
  {
    BackAndForthIsPinned();
    RunLast(BackAndForth(), Changeset([RestOnBoth()], 4));
  }

  predicate Belongs(a: Anchor, id: NodeId, revision: nat) {
    a.entity == NodeEntity && a.id == id && a.revision == revision
  }

  lemma AnchorsAtCons(a: Anchor, rest: seq<Anchor>, id: NodeId, revision: nat)
    ensures AnchorsAt([a] + rest, NodeEntity, id, revision)
            == (if Belongs(a, id, revision) then [a] else []) + AnchorsAt(rest, NodeEntity, id, revision)
  {
    assert ([a] + rest)[1..] == rest;
  }

  lemma FourAnchors(a: Anchor, b: Anchor, c: Anchor, d: Anchor, id: NodeId, revision: nat)
    ensures AnchorsAt([a, b, c, d], NodeEntity, id, revision)
            == (if Belongs(a, id, revision) then [a] else []) + ((if Belongs(b, id, revision) then [b] else [])
               + ((if Belongs(c, id, revision) then [c] else []) + (if Belongs(d, id, revision) then [d] else [])))
  {
    AnchorsAtCons(d, [], id, revision);
    AnchorsAtCons(c, [d], id, revision);
    AnchorsAtCons(b, [c, d], id, revision);
    AnchorsAtCons(a, [b, c, d], id, revision);
    assert [d] + [] == [d] && [c] + [d] == [c, d] && [b] + [c, d] == [b, c, d] && [a] + [b, c, d] == [a, b, c, d];
    assert (if Belongs(d, id, revision) then [d] else []) + [] == if Belongs(d, id, revision) then [d] else [];
  }

  lemma AnchorsOfX()
    ensures AnchorsInForce(StoreD(), "mem-x") == [AnchorX("mem-b", 1), AnchorX("mem-a", 2)]
  {
    FourAnchors(AnchorB(), AnchorA(), AnchorX("mem-b", 1), AnchorX("mem-a", 2), "mem-x", 1);
  }

  lemma AnchorsOfA()
    ensures AnchorsInForce(StoreD(), "mem-a") == [AnchorA()]
  {
    FourAnchors(AnchorB(), AnchorA(), AnchorX("mem-b", 1), AnchorX("mem-a", 2), "mem-a", 2);
  }

  lemma AnchorsOfB()
    ensures AnchorsInForce(StoreD(), "mem-b") == [AnchorB()]
  {
    FourAnchors(AnchorB(), AnchorA(), AnchorX("mem-b", 1), AnchorX("mem-a", 2), "mem-b", 1);
  }

  /** `x` rests on `b` and then on `a`; `a` rests on `b`; `b` still names an older revision of `a`. */
  ghost predicate RestsOnBoth(g: Graph, x: NodeId, a: NodeId, b: NodeId) {
    && x != a && x != b && a != b && a in g.nodes && b in g.nodes
    && |AnchorsInForce(g, x)| == 2 && |AnchorsInForce(g, a)| == |AnchorsInForce(g, b)| == 1
    && DependsAt(g, AnchorsInForce(g, x)[0], b) && DependsAt(g, AnchorsInForce(g, x)[1], a)
    && DependsAt(g, AnchorsInForce(g, a)[0], b) && OutdatedAt(g, AnchorsInForce(g, b)[0], a)
  }

  lemma NodesOfStoreD()
    ensures var nodes := StoreD().nodes;
            && "mem-a" in nodes && nodes["mem-a"].revision == 2
            && "mem-b" in nodes && nodes["mem-b"].revision == 1
  {
  }

  lemma XRests()
    ensures var g := StoreD();
            && |AnchorsInForce(g, "mem-x")| == 2 && DependsAt(g, AnchorsInForce(g, "mem-x")[0], "mem-b")
            && DependsAt(g, AnchorsInForce(g, "mem-x")[1], "mem-a")
  {
    NodesOfStoreD();
    AnchorsOfX();
  }

  lemma ARests()
    ensures var g := StoreD();
            |AnchorsInForce(g, "mem-a")| == 1 && DependsAt(g, AnchorsInForce(g, "mem-a")[0], "mem-b")
  {
    NodesOfStoreD();
    AnchorsOfA();
  }

  lemma BNamesBack()
    ensures var g := StoreD();
            |AnchorsInForce(g, "mem-b")| == 1 && OutdatedAt(g, AnchorsInForce(g, "mem-b")[0], "mem-a")
  {
    NodesOfStoreD();
    AnchorsOfB();
  }

  lemma StoreDRestsOnBoth()
    ensures RestsOnBoth(StoreD(), "mem-x", "mem-a", "mem-b")
  {
    NodesOfStoreD();
    XRests();
    ARests();
    BNamesBack();
  }

  /** A dependency path leads from `x` over `a` to `b`, and `b` names `a`. */
  lemma RestingIsTrouble(g: Graph, provider: Provider, x: NodeId, a: NodeId, b: NodeId)
    requires RestsOnBoth(g, x, a, b)
    ensures InTrouble(g, provider, x)
  {
    var p := [x, a, b];
    PathOfThree(g, x, a, b);
    assert p[1] in {} + NodesOf(p);
    assert NamesOneOf(AnchorsInForce(g, Last(p))[0], {} + NodesOf(p));
    assert Trouble(g, provider, p, {});
  }

  lemma PathOfThree(g: Graph, x: NodeId, a: NodeId, b: NodeId)
    requires RestsOnBoth(g, x, a, b)
    ensures IsPath(g, [x, a, b])
  {
    assert Depends(g, x, a) && Depends(g, a, b);
  }

  /** With a semantic record of `b` in the cache, `a` takes it from there. */
  lemma ThenA(g: Graph, provider: Provider, x: NodeId, a: NodeId, b: NodeId, cache: Cache)
    requires RestsOnBoth(g, x, a, b) && cache.Keys == {b} && cache[b].grade == Semantic
    ensures EvaluateCached(g, provider, a, {x} + {a}, cache).0.grade == Semantic
  {
    var aOnB := AnchorsInForce(g, a)[0];
    assert AnchorsInForce(g, a) == [aOnB];
    SingleStatus(g, provider, aOnB, {x} + {a}, cache);
  }

  lemma RestingIsTrusted(g: Graph, provider: Provider, x: NodeId, a: NodeId, b: NodeId)
    requires RestsOnBoth(g, x, a, b)
    ensures Project(g, provider, [x], map[]).0[0].grade == Semantic
  {
    OutdatedIsSemantic(g, provider, b, a, {x} + {b});
    var (rb, cache) := EvaluateCached(g, provider, b, {x} + {b}, map[]);
    ThenA(g, provider, x, a, b, cache);
    var onB, onA := AnchorsInForce(g, x)[0], AnchorsInForce(g, x)[1];
    assert AnchorsInForce(g, x) == [onB, onA];
    BothSemantic(g, provider, onB, onA, {x}, map[]);
    assert EvaluateCached(g, provider, x, {x}, map[]).0.grade == Semantic;
    assert [x][0] == x;
  }

  lemma BothSemantic(g: Graph, provider: Provider, first: Anchor, second: Anchor, stack: set<NodeId>, cache: Cache)
    requires var (s, cache1) := AnchorStatusCached(g, provider, first, stack, cache);
             s.grade == Semantic && AnchorStatusCached(g, provider, second, stack, cache1).0.grade == Semantic
    ensures Combine(Grades(AnchorStatusesCached(g, provider, [first, second], stack, cache).0)) == Semantic
  {
    var (s, cache1) := AnchorStatusCached(g, provider, first, stack, cache);
    SingleStatus(g, provider, second, stack, cache1);
    assert [first, second][1..] == [second];
    var sources := AnchorStatusesCached(g, provider, [first, second], stack, cache).0;
    var t := AnchorStatusCached(g, provider, second, stack, cache1).0;
    assert sources == [s, t];
    assert Grades(sources) == [Semantic, Semantic];
    assert Grades(sources)[0] in Grades(sources);
  }

  /** A pinned history after which X, projected alone from an empty cache, is trusted although a dependency path from
      it ends in a node naming one of that path. */
  lemma TrustCanMislead(provider: Provider)
    ensures var g := Run(ThenBoth());
            && PinnedHistory(ThenBoth()) && Ranked(g) && InTrouble(g, provider, "mem-x")
            && Good(Project(g, provider, ["mem-x"], map[]).0[0].grade)
            && !Good(Evaluate(g, provider, "mem-x", {"mem-x"}).grade)
  {
    ThenBothStore();
    ThenBothIsPinned();
    PinnedHistoryIsRanked(ThenBoth());
    StoreDRestsOnBoth();
    RestingIsTrouble(StoreD(), provider, "mem-x", "mem-a", "mem-b");
    RestingIsTrusted(StoreD(), provider, "mem-x", "mem-a", "mem-b");
    FreshnessIsExact(StoreD(), provider, "mem-x");
  }
}
