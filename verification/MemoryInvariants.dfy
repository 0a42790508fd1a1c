/** Every history of changesets keeps the log complete, the tasks consistent and the pins sound. */
module MemoryInvariants {
  import opened Prelude
  import opened MemoryGraph
  import opened MemoryHistory

  // ---- storing anchors -------------------------------------------------------------------

  predicate Checked(g: Graph, entity: Entity, id: string, revision: nat, a: Anchor) {
    && a.entity == entity && a.id == id && a.revision == revision
    && (a.sourceRevision.Some? ==> Pinned(a) && a.sourceRef.Some?
                                   && SourceRevisionExists(g, a.kind, a.sourceRef.value, a.sourceRevision.value))
  }

  lemma {:induction false} StoredAnchors(g: Graph, entity: Entity, id: string, revision: nat, raws: seq<AnchorInput>)
    ensures var r := StoreAnchors(g, entity, id, revision, raws);
            r.Ok? ==> && r.value == g.(anchors := r.value.anchors)
                      && g.anchors <= r.value.anchors
                      && forall i :: |g.anchors| <= i < |r.value.anchors| ==>
                                       Checked(g, entity, id, revision, r.value.anchors[i])
    decreases |raws|
  {
    if raws != [] && CheckAnchor(g, entity, id, revision, raws[0]).Ok? {
      var a := CheckAnchor(g, entity, id, revision, raws[0]).value;
      var g1 := g.(anchors := g.anchors + [a]);
      StoredAnchors(g1, entity, id, revision, raws[1..]);
      var r := StoreAnchors(g, entity, id, revision, raws);
      if r.Ok? {
        forall i | |g.anchors| <= i < |r.value.anchors|
          ensures Checked(g, entity, id, revision, r.value.anchors[i])
        {
          assert i > |g.anchors| ==> Checked(g1, entity, id, revision, r.value.anchors[i]);
        }
      }
    }
  }

  // ---- node writes -----------------------------------------------------------------------

  predicate NodePayload(p: Payload) {
    p.NodeCreated? || p.NodeUpdated? || p.NodeClosed?
  }

  /** The write continues the node's history and its task's lifecycle. */
  predicate NodeWriteFits(g: Graph, id: NodeId, row: NodeRow, tags: TagSet, opens: bool, payload: Payload, at: nat) {
    && NodePayload(payload)
    && ReplayNodeEvent(NodeNow(g, id), Event(id, row.revision, payload, at)) == Row(Facts(row, tags))
    && (opens ==> id !in g.tasks && row.status == Current)
    && (row.kind == "task" <==> id in g.tasks || opens)
    && (id in g.tasks && row.status != Current ==> Terminal(g.tasks[id].state))
  }

  function TaskEvents(id: NodeId, opens: bool, at: nat): seq<Event> {
    if opens then [Event(id, 1, TaskOpened, at)] else []
  }

  /** The graph a successful node write leaves, field by field. */
  predicate NodeWritten(g: Graph, r: Graph, id: NodeId, row: NodeRow, tags: TagSet, opens: bool, payload: Payload,
                        at: nat) {
    && r.nodes == g.nodes[id := row]
    && r.tags == g.tags[id := tags]
    && r.edges == g.edges
    && r.tasks == (if opens then g.tasks[id := TaskRow(Active, 1, None)] else g.tasks)
    && r.log == g.log + TaskEvents(id, opens, at) + [Event(id, row.revision, payload, at)]
    && g.anchors <= r.anchors
  }

  lemma NodeWriteFields(g: Graph, id: NodeId, row: NodeRow, tags: TagSet, raws: seq<AnchorInput>, opens: bool,
                        payload: Payload, at: nat)
    ensures var r := WriteNode(g, id, row, tags, raws, opens, payload, at);
            var g1 := g.(nodes := g.nodes[id := row], tags := g.tags[id := tags]);
            r.Ok? ==> && NodeWritten(g, r.value, id, row, tags, opens, payload, at)
                      && forall i :: |g.anchors| <= i < |r.value.anchors| ==>
                                       Checked(g1, NodeEntity, id, row.revision, r.value.anchors[i])
  {
    StoredAnchors(g.(nodes := g.nodes[id := row], tags := g.tags[id := tags]), NodeEntity, id, row.revision, raws);
  }

  lemma NodeWriteTold(g: Graph, r: Graph, id: NodeId, row: NodeRow, tags: TagSet, opens: bool, payload: Payload,
                      at: nat, x: string)
    requires Told(g, x) && NodeWriteFits(g, id, row, tags, opens, payload, at)
    requires NodeWritten(g, r, id, row, tags, opens, payload, at)
    ensures Told(r, x)
  {
    var revised := Event(id, row.revision, payload, at);
    ReplayAppend(g.log + TaskEvents(id, opens, at), revised, x);
    if opens {
      ReplayAppend(g.log, Event(id, 1, TaskOpened, at), x);
    } else {
      assert g.log + TaskEvents(id, opens, at) == g.log;
    }
  }

  lemma NodeWriteTime(g: Graph, r: Graph, id: NodeId, row: NodeRow, tags: TagSet, opens: bool, payload: Payload,
                      at: nat, x: string)
    requires NodePayload(payload)
    requires NodeWritten(g, r, id, row, tags, opens, payload, at)
    ensures LastRevised(r.log, x) == if x == id then |r.log| - 1 else LastRevised(g.log, x)
  {
    var revised := Event(id, row.revision, payload, at);
    LastRevisedAppend(g.log + TaskEvents(id, opens, at), revised, x);
    if opens {
      LastRevisedAppend(g.log, Event(id, 1, TaskOpened, at), x);
    } else {
      assert g.log + TaskEvents(id, opens, at) == g.log;
    }
  }

  /** Anchors stored earlier survive a node write. */
  lemma NodeWriteKeepsAnchor(g: Graph, r: Graph, id: NodeId, row: NodeRow, tags: TagSet, opens: bool, payload: Payload,
                             at: nat, a: Anchor)
    requires HistoryComplete(g) && NodeWriteFits(g, id, row, tags, opens, payload, at)
    requires NodeWritten(g, r, id, row, tags, opens, payload, at)
    requires PinHolds(g, a) && PinLooksBack(g, a)
    ensures PinHolds(r, a) && PinLooksBack(r, a)
  {
    NodeWriteTime(g, r, id, row, tags, opens, payload, at, a.id);
    if a.sourceRef.Some? {
      NodeWriteTime(g, r, id, row, tags, opens, payload, at, a.sourceRef.value);
    }
  }

  /** Anchors stored by a node write are sound, and older than nothing they are pinned to. */
  lemma NodeWriteGivesAnchor(g: Graph, r: Graph, id: NodeId, row: NodeRow, tags: TagSet, opens: bool, payload: Payload,
                             at: nat, a: Anchor)
    requires HistoryComplete(g) && NodeWriteFits(g, id, row, tags, opens, payload, at)
    requires NodeWritten(g, r, id, row, tags, opens, payload, at)
    requires Checked(g.(nodes := g.nodes[id := row], tags := g.tags[id := tags]), NodeEntity, id, row.revision, a)
    ensures PinHolds(r, a) && PinLooksBack(r, a)
  {
    RevisionsStartAtOne(g, id);
    if Pinned(a) {
      FreshPinIsExact(g, g.(nodes := g.nodes[id := row], tags := g.tags[id := tags]), id, row, a);
      NodeWriteTime(g, r, id, row, tags, opens, payload, at, id);
      NodeWriteTime(g, r, id, row, tags, opens, payload, at, a.sourceRef.value);
    }
  }

  lemma RevisionsStartAtOne(g: Graph, id: NodeId)
    requires HistoryComplete(g)
    ensures id in g.nodes ==> g.nodes[id].revision >= 1
    ensures id in g.edges ==> g.edges[id].revision >= 1
    ensures id in g.tasks ==> g.tasks[id].revision >= 1
  {
    assert Told(g, id);
    ReplayedRevisionsArePositive(g.log, id);
  }

  lemma {:induction false} ReplayedRevisionsArePositive(log: seq<Event>, id: string)
    ensures ReplayNode(log, id).Row? ==> ReplayNode(log, id).value.revision >= 1
    ensures ReplayEdge(log, id).Row? ==> ReplayEdge(log, id).value.revision >= 1
    ensures ReplayTask(log, id).Row? ==> ReplayTask(log, id).value.revision >= 1
  {
    if log != [] {
      ReplayedRevisionsArePositive(log[..|log| - 1], id);
    }
  }

  /** In the middle of a write the node row is already the new one while the log still ends before it. */
  lemma FreshPinIsExact(g: Graph, g1: Graph, id: NodeId, row: NodeRow, a: Anchor)
    requires HistoryComplete(g)
    requires g1.nodes == g.nodes[id := row] && g1.edges == g.edges && g1.log == g.log
    requires row.revision == if id in g.nodes then g.nodes[id].revision + 1 else 1
    requires Pinned(a) && a.sourceRef.Some?
    requires SourceRevisionExists(g1, a.kind, a.sourceRef.value, a.sourceRevision.value)
    ensures 1 <= a.sourceRevision.value <= CurrentRevision(g1, a.kind, a.sourceRef.value).value
  {
    var ref, r := a.sourceRef.value, a.sourceRevision.value;
    if CurrentRevision(g1, a.kind, ref).value != r {
      if CurrentRevision(g, a.kind, ref).Some? {
        SourceRevisionExistsIsExact(g, a.kind, ref, r);
      } else {
        assert Told(g, ref);
        NoNodeEvents(g.log, ref);
      }
    }
  }

  lemma NodeWriteKeepsRows(g: Graph, r: Graph, id: NodeId, row: NodeRow, tags: TagSet, opens: bool, payload: Payload,
                           at: nat)
    requires Valid(g) && NodeWriteFits(g, id, row, tags, opens, payload, at)
    requires NodeWritten(g, r, id, row, tags, opens, payload, at)
    ensures HistoryComplete(r) && TasksConsistent(r) && r.tags.Keys == r.nodes.Keys
  {
    forall x
      ensures Told(r, x)
    {
      NodeWriteTold(g, r, id, row, tags, opens, payload, at, x);
    }
  }

  lemma NodeWriteKeepsPins(g: Graph, r: Graph, id: NodeId, row: NodeRow, tags: TagSet, opens: bool, payload: Payload,
                           at: nat)
    requires Valid(g) && NodeWriteFits(g, id, row, tags, opens, payload, at)
    requires NodeWritten(g, r, id, row, tags, opens, payload, at)
    requires forall i :: |g.anchors| <= i < |r.anchors| ==>
               Checked(g.(nodes := g.nodes[id := row], tags := g.tags[id := tags]), NodeEntity, id, row.revision,
                       r.anchors[i])
    ensures PinsHold(r) && PinsLookBack(r)
  {
    forall i | 0 <= i < |r.anchors|
      ensures PinHolds(r, r.anchors[i]) && PinLooksBack(r, r.anchors[i])
    {
      if i < |g.anchors| {
        assert r.anchors[i] == g.anchors[i];
        NodeWriteKeepsAnchor(g, r, id, row, tags, opens, payload, at, r.anchors[i]);
      } else {
        NodeWriteGivesAnchor(g, r, id, row, tags, opens, payload, at, r.anchors[i]);
      }
    }
  }

  lemma NodeWriteKeepsValid(g: Graph, id: NodeId, row: NodeRow, tags: TagSet, raws: seq<AnchorInput>, opens: bool,
                            payload: Payload, at: nat)
    requires Valid(g) && NodeWriteFits(g, id, row, tags, opens, payload, at)
    ensures var r := WriteNode(g, id, row, tags, raws, opens, payload, at);
            r.Ok? ==> Valid(r.value)
  {
    NodeWriteFields(g, id, row, tags, raws, opens, payload, at);
    var r := WriteNode(g, id, row, tags, raws, opens, payload, at);
    if r.Ok? {
      NodeWriteKeepsRows(g, r.value, id, row, tags, opens, payload, at);
      NodeWriteKeepsPins(g, r.value, id, row, tags, opens, payload, at);
    }
  }

  // ---- edge and task writes --------------------------------------------------------------

  predicate EdgeWriteFits(g: Graph, id: EdgeId, row: EdgeRow, payload: Payload, at: nat) {
    && (payload.EdgeCreated? || payload.EdgeUpdated? || payload.EdgeRetired?)
    && row.source in g.nodes && row.target in g.nodes
    && ReplayEdgeEvent(EdgeNow(g, id), Event(id, row.revision, payload, at))
       == Row(EdgeFacts(row.source, row.relation, row.target, row.epistemic, row.status, row.revision))
  }

  lemma EdgeWriteTold(g: Graph, r: Graph, id: EdgeId, row: EdgeRow, payload: Payload, at: nat, x: string)
    requires Told(g, x) && EdgeWriteFits(g, id, row, payload, at)
    requires r.nodes == g.nodes && r.tags == g.tags && r.tasks == g.tasks && r.edges == g.edges[id := row]
    requires r.log == g.log + [Event(id, row.revision, payload, at)]
    ensures Told(r, x)
    ensures LastRevised(r.log, x) == LastRevised(g.log, x)
  {
    ReplayAppend(g.log, Event(id, row.revision, payload, at), x);
    LastRevisedAppend(g.log, Event(id, row.revision, payload, at), x);
  }

  lemma EdgeWriteGivesAnchor(g: Graph, r: Graph, id: EdgeId, row: EdgeRow, payload: Payload, at: nat, a: Anchor)
    requires HistoryComplete(g) && EdgeWriteFits(g, id, row, payload, at)
    requires r.nodes == g.nodes && r.edges == g.edges[id := row]
    requires Checked(g.(edges := g.edges[id := row]), EdgeEntity, id, row.revision, a)
    ensures PinHolds(r, a) && PinLooksBack(r, a)
  {
    RevisionsStartAtOne(g, id);
    if Pinned(a) {
      FreshEdgePinIsExact(g, g.(edges := g.edges[id := row]), id, row, a);
    }
  }

  lemma EdgeWriteKeepsPins(g: Graph, r: Graph, id: EdgeId, row: EdgeRow, payload: Payload, at: nat)
    requires Valid(g) && EdgeWriteFits(g, id, row, payload, at)
    requires r.nodes == g.nodes && r.edges == g.edges[id := row] && g.anchors <= r.anchors
    requires forall x :: LastRevised(r.log, x) == LastRevised(g.log, x)
    requires forall i :: |g.anchors| <= i < |r.anchors| ==>
               Checked(g.(edges := g.edges[id := row]), EdgeEntity, id, row.revision, r.anchors[i])
    ensures PinsHold(r) && PinsLookBack(r)
  {
    forall i | 0 <= i < |r.anchors|
      ensures PinHolds(r, r.anchors[i]) && PinLooksBack(r, r.anchors[i])
    {
      if i < |g.anchors| {
        assert r.anchors[i] == g.anchors[i] && PinHolds(g, g.anchors[i]) && PinLooksBack(g, g.anchors[i]);
      } else {
        EdgeWriteGivesAnchor(g, r, id, row, payload, at, r.anchors[i]);
      }
    }
  }

  lemma EdgeWriteKeepsValid(g: Graph, id: EdgeId, row: EdgeRow, raws: seq<AnchorInput>, payload: Payload, at: nat)
    requires Valid(g) && EdgeWriteFits(g, id, row, payload, at)
    ensures var r := WriteEdge(g, id, row, raws, payload, at);
            r.Ok? ==> Valid(r.value)
  {
    StoredAnchors(g.(edges := g.edges[id := row]), EdgeEntity, id, row.revision, raws);
    if WriteEdge(g, id, row, raws, payload, at).Ok? {
      var r := WriteEdge(g, id, row, raws, payload, at).value;
      forall x
        ensures Told(r, x) && LastRevised(r.log, x) == LastRevised(g.log, x)
      {
        EdgeWriteTold(g, r, id, row, payload, at, x);
      }
      EdgeWriteKeepsPins(g, r, id, row, payload, at);
    }
  }

  lemma FreshEdgePinIsExact(g: Graph, g1: Graph, id: EdgeId, row: EdgeRow, a: Anchor)
    requires HistoryComplete(g)
    requires g1.edges == g.edges[id := row] && g1.nodes == g.nodes && g1.log == g.log
    requires row.revision == if id in g.edges then g.edges[id].revision + 1 else 1
    requires Pinned(a) && a.sourceRef.Some?
    requires SourceRevisionExists(g1, a.kind, a.sourceRef.value, a.sourceRevision.value)
    ensures 1 <= a.sourceRevision.value <= CurrentRevision(g1, a.kind, a.sourceRef.value).value
  {
    var ref, r := a.sourceRef.value, a.sourceRevision.value;
    if CurrentRevision(g1, a.kind, ref).value != r {
      if CurrentRevision(g, a.kind, ref).Some? {
        SourceRevisionExistsIsExact(g, a.kind, ref, r);
      } else {
        assert Told(g, ref);
        NoEdgeEvents(g.log, ref);
      }
    }
  }

  lemma TaskWriteTold(g: Graph, id: NodeId, row: TaskRow, payload: Payload, at: nat, x: string)
    requires Told(g, x) && payload.TaskMoved?
    requires ReplayTaskEvent(TaskNow(g, id), Event(id, row.revision, payload, at))
             == Row(TaskFacts(row.state, row.revision))
    ensures Told(WriteTask(g, id, row, payload, at), x)
    ensures LastRevised(WriteTask(g, id, row, payload, at).log, x) == LastRevised(g.log, x)
  {
    ReplayAppend(g.log, Event(id, row.revision, payload, at), x);
    LastRevisedAppend(g.log, Event(id, row.revision, payload, at), x);
  }

  lemma TaskWriteKeepsValid(g: Graph, id: NodeId, row: TaskRow, payload: Payload, at: nat)
    requires Valid(g)
    requires id in g.nodes && g.nodes[id].status == Current && id in g.tasks && payload.TaskMoved?
    requires ReplayTaskEvent(TaskNow(g, id), Event(id, row.revision, payload, at))
             == Row(TaskFacts(row.state, row.revision))
    requires row.resolvedAt.Some? <==> Terminal(row.state)
    ensures Valid(WriteTask(g, id, row, payload, at))
  {
    var r := WriteTask(g, id, row, payload, at);
    forall x
      ensures Told(r, x) && LastRevised(r.log, x) == LastRevised(g.log, x)
    {
      TaskWriteTold(g, id, row, payload, at, x);
    }
    SameRowsKeepPins(g, r);
  }

  lemma SameRowsKeepPins(g: Graph, r: Graph)
    requires PinsHold(g) && PinsLookBack(g)
    requires r.nodes == g.nodes && r.edges == g.edges && r.anchors == g.anchors
    requires forall x :: LastRevised(r.log, x) == LastRevised(g.log, x)
    ensures PinsHold(r) && PinsLookBack(r)
  {
    forall i | 0 <= i < |r.anchors|
      ensures PinHolds(r, r.anchors[i]) && PinLooksBack(r, r.anchors[i])
    {
      assert PinHolds(g, g.anchors[i]) && PinLooksBack(g, g.anchors[i]);
    }
  }

  // ---- operations, changesets, histories -------------------------------------------------

  lemma CloseFits(g: Graph, id: NodeId, status: NodeStatus, replacement: Option<NodeId>, at: nat)
    requires TasksConsistent(g) && id in g.nodes && g.nodes[id].status == Current && status != Current
    requires id in g.tasks ==> Terminal(g.tasks[id].state)
    ensures NodeWriteFits(g, id, g.nodes[id].(status := status, revision := g.nodes[id].revision + 1), TagsOf(g, id),
                          false,
                          NodeClosed(status, replacement), at)
  {
  }

  lemma CloseKeepsValid(g: Graph, id: NodeId, status: NodeStatus, replacement: Option<NodeId>, at: nat)
    requires Valid(g) && id in g.nodes && g.nodes[id].status == Current && status != Current
    requires id in g.tasks ==> Terminal(g.tasks[id].state)
    ensures Close(g, id, status, replacement, at).Ok? ==> Valid(Close(g, id, status, replacement, at).value)
  {
    var row := g.nodes[id].(status := status, revision := g.nodes[id].revision + 1);
    CloseFits(g, id, status, replacement, at);
    assert Close(g, id, status, replacement, at)
           == WriteNode(g, id, row, TagsOf(g, id), [], false, NodeClosed(status, replacement), at);
    NodeWriteKeepsValid(g, id, row, TagsOf(g, id), [], false, NodeClosed(status, replacement), at);
  }

  function CreationOf(row: NodeRow, tags: seq<string>): Payload {
    NodeCreated(row.scope, row.domain, row.contextKey, row.kind, row.content, row.retention, row.epistemic, row.recall,
                tags)
  }

  lemma CreateNodeFits(g: Graph, op: Operation, at: nat)
    requires TasksConsistent(g) && op.CreateNode? && op.id !in g.nodes && NewNodeRow(op, at).Ok?
    ensures var row, tags := NewNodeRow(op, at).value, CleanTags(op.tags);
            NodeWriteFits(g, op.id, row, AddTags(map[], tags), row.kind == "task", CreationOf(row, tags), at)
  {
  }

  lemma CreateNodeKeepsValid(g: Graph, op: Operation, at: nat)
    requires Valid(g) && op.CreateNode?
    ensures ApplyCreateNode(g, op, at).Ok? ==> Valid(ApplyCreateNode(g, op, at).value)
  {
    if ApplyCreateNode(g, op, at).Ok? {
      var row, tags := NewNodeRow(op, at).value, CleanTags(op.tags);
      CreateNodeFits(g, op, at);
      NodeWriteKeepsValid(g, op.id, row, AddTags(map[], tags), op.anchors, row.kind == "task",
                          CreationOf(row, tags), at);
    }
  }

  function RevisionOf(row: NodeRow, added: seq<string>, removed: seq<string>): Payload {
    NodeUpdated(row.content, row.kind, row.retention, row.epistemic, row.recall, added, removed)
  }

  lemma UpdateNodeFits(g: Graph, id: NodeId, op: Operation, at: nat)
    requires TasksConsistent(g) && op.UpdateNode? && id in g.nodes && g.nodes[id].status == Current
    requires RevisedNodeRow(g.nodes[id], id in g.tasks, op, at).Ok?
    ensures var row := RevisedNodeRow(g.nodes[id], id in g.tasks, op, at).value;
            var added, removed := CleanTags(op.addTags), CleanTags(op.removeTags);
            NodeWriteFits(g, id, row, RemoveTags(AddTags(TagsOf(g, id), added), removed),
                          row.kind == "task" && id !in g.tasks, RevisionOf(row, added, removed), at)
  {
  }

  lemma UpdateNodeKeepsValid(g: Graph, op: Operation, at: nat)
    requires Valid(g) && op.UpdateNode?
    ensures ApplyUpdateNode(g, op, at).Ok? ==> Valid(ApplyUpdateNode(g, op, at).value)
  {
    if ApplyUpdateNode(g, op, at).Ok? {
      var id := FindCurrentNode(g, op.id, op.expected).value;
      var row := RevisedNodeRow(g.nodes[id], id in g.tasks, op, at).value;
      var added, removed := CleanTags(op.addTags), CleanTags(op.removeTags);
      UpdateNodeFits(g, id, op, at);
      NodeWriteKeepsValid(g, id, row, RemoveTags(AddTags(TagsOf(g, id), added), removed), op.anchors,
                          row.kind == "task" && id !in g.tasks, RevisionOf(row, added, removed), at);
    }
  }

  lemma SupersedeKeepsValid(g: Graph, op: Operation, at: nat)
    requires Valid(g) && op.SupersedeNode?
    ensures ApplySupersede(g, op, at).Ok? ==> Valid(ApplySupersede(g, op, at).value)
  {
    if ApplySupersede(g, op, at).Ok? {
      var id := FindClosable(g, op.id, op.expected).value;
      var replacement := CleanText(op.replacement, "REPLACEMENT", Some(120)).value;
      var row := EdgeRow(id, "superseded_by", replacement, LIFECYCLE, None, Live, 1);
      var created := EdgeCreated(id, "superseded_by", replacement, None);
      EdgeWriteKeepsValid(g, op.relationId, row, [], created, at);
      CloseKeepsValid(WriteEdge(g, op.relationId, row, [], created, at).value, id, Superseded, Some(replacement), at);
    }
  }

  lemma CreateEdgeKeepsValid(g: Graph, op: Operation, at: nat)
    requires Valid(g) && op.CreateEdge?
    ensures ApplyCreateEdge(g, op, at).Ok? ==> Valid(ApplyCreateEdge(g, op, at).value)
  {
    if ApplyCreateEdge(g, op, at).Ok? {
      var source := CleanText(op.source, "SOURCE", Some(120)).value;
      var target := CleanText(op.target, "TARGET", Some(120)).value;
      var relation := CleanText(op.relation, "RELATION", Some(120)).value;
      var epistemic := op.epistemic.Or(RELATION, EpistemicInvalid).value;
      EdgeWriteKeepsValid(g, op.id,
                          EdgeRow(source, relation, target, epistemic, Evidenced(op.anchors, at, None), Live, 1),
                          op.anchors, EdgeCreated(source, relation, target, Some(epistemic)), at);
    }
  }

  lemma UpdateEdgeKeepsValid(g: Graph, op: Operation, at: nat)
    requires Valid(g) && op.UpdateEdge?
    ensures ApplyUpdateEdge(g, op, at).Ok? ==> Valid(ApplyUpdateEdge(g, op, at).value)
  {
    if ApplyUpdateEdge(g, op, at).Ok? {
      var id := FindCurrentEdge(g, op.id, op.expected).value;
      var row := g.edges[id];
      var relation := Keep(op.relation, row.relation);
      var epistemic := op.epistemic.Or(row.epistemic, EpistemicInvalid).value;
      EdgeWriteKeepsValid(g, id, row.(relation := relation, epistemic := epistemic,
                                      evidenced := Evidenced(op.anchors, at, row.evidenced),
                                      revision := row.revision + 1),
                          op.anchors, EdgeUpdated(relation, epistemic), at);
    }
  }

  lemma RetireEdgeKeepsValid(g: Graph, op: Operation, at: nat)
    requires Valid(g) && op.RetireEdge?
    ensures ApplyRetireEdge(g, op, at).Ok? ==> Valid(ApplyRetireEdge(g, op, at).value)
  {
    if ApplyRetireEdge(g, op, at).Ok? {
      var id := FindCurrentEdge(g, op.id, op.expected).value;
      var row := g.edges[id].(status := Retired, revision := g.edges[id].revision + 1);
      assert ApplyRetireEdge(g, op, at) == WriteEdge(g, id, row, [], EdgeRetired, at);
      EdgeWriteKeepsValid(g, id, row, [], EdgeRetired, at);
    }
  }

  /** The row a change of task state writes. */
  function MovedTask(task: TaskRow, state: TaskState, at: nat): TaskRow {
    TaskRow(state, task.revision + 1, if Terminal(state) then Some(at) else None)
  }

  lemma SetTaskStatusCases(g: Graph, op: Operation, at: nat)
    requires op.SetTaskStatus? && ApplySetTaskStatus(g, op, at).Ok?
    ensures var id := Strip(op.id);
            && id in g.nodes && g.nodes[id].status == Current && id in g.tasks && op.state.Some?
            && ApplySetTaskStatus(g, op, at).value
               == if g.tasks[id].state == op.state.value then g
                  else WriteTask(g, id, MovedTask(g.tasks[id], op.state.value, at),
                                 TaskMoved(g.tasks[id].state, op.state.value), at)
  {
  }

  lemma SetTaskStatusKeepsValid(g: Graph, op: Operation, at: nat)
    requires Valid(g) && op.SetTaskStatus? && ApplySetTaskStatus(g, op, at).Ok?
    ensures Valid(ApplySetTaskStatus(g, op, at).value)
    ensures Extends(g, ApplySetTaskStatus(g, op, at).value)
  {
    SetTaskStatusCases(g, op, at);
    var id, r := Strip(op.id), ApplySetTaskStatus(g, op, at).value;
    if r != g {
      var task, state := g.tasks[id], op.state.value;
      TaskWriteKeepsValid(g, id, MovedTask(task, state, at), TaskMoved(task.state, state), at);
    }
  }

  /** Every successful operation keeps every store invariant. */
  lemma ApplyKeepsValid(g: Graph, op: Operation, at: nat)
    requires Valid(g)
    ensures Apply(g, op, at).Ok? ==> Valid(Apply(g, op, at).value)
  {
    if op.CreateNode? {
      CreateNodeKeepsValid(g, op, at);
    } else if op.UpdateNode? {
      UpdateNodeKeepsValid(g, op, at);
    } else if op.ArchiveNode? {
      if FindClosable(g, op.id, op.expected).Ok? {
        CloseKeepsValid(g, FindClosable(g, op.id, op.expected).value, Archived, None, at);
      }
    } else if op.SupersedeNode? {
      SupersedeKeepsValid(g, op, at);
    } else if op.SetTaskStatus? {
      if ApplySetTaskStatus(g, op, at).Ok? {
        SetTaskStatusKeepsValid(g, op, at);
      }
    } else if op.CreateEdge? {
      CreateEdgeKeepsValid(g, op, at);
    } else if op.UpdateEdge? {
      UpdateEdgeKeepsValid(g, op, at);
    } else if op.RetireEdge? {
      RetireEdgeKeepsValid(g, op, at);
    }
  }

  lemma {:induction false} ApplyAllKeepsValid(g: Graph, ops: seq<Operation>, at: nat)
    requires Valid(g)
    ensures ApplyAll(g, ops, at).Ok? ==> Valid(ApplyAll(g, ops, at).value)
    decreases |ops|
  {
    if ops != [] {
      ApplyKeepsValid(g, ops[0], at);
      if Apply(g, ops[0], at).Ok? {
        ApplyAllKeepsValid(Apply(g, ops[0], at).value, ops[1..], at);
      }
    }
  }

  /** In the store after any history of changesets the log replays to exactly the rows, tasks are
      consistent, and pins are sound and look back in time. */
  lemma {:induction false} RunIsValid(history: seq<Changeset>)
    ensures Valid(Run(history))
  {
    if history == [] {
      assert forall id :: ReplayNode([], id) == Nothing && ReplayEdge([], id) == Nothing
              && ReplayTask([], id) == Nothing;
    } else {
      var before, change := Run(history[..|history| - 1]), history[|history| - 1];
      RunIsValid(history[..|history| - 1]);
      ApplyAllKeepsValid(before, change.operations, change.at);
    }
  }

  // ---- what later changesets cannot change -----------------------------------------------

  /** History only grows; revisions only rise; what is closed stays as it was. */
  ghost predicate Extends(g: Graph, later: Graph) {
    && g.log <= later.log
    && g.anchors <= later.anchors
    && (forall id :: id in g.nodes ==> NodeExtends(g, later, id))
    && (forall id :: id in g.edges ==> EdgeExtends(g, later, id))
  }

  predicate NodeExtends(g: Graph, later: Graph, id: NodeId)
    requires id in g.nodes
  {
    && id in later.nodes
    && g.nodes[id].revision <= later.nodes[id].revision
    && g.nodes[id].scope == later.nodes[id].scope
    && g.nodes[id].domain == later.nodes[id].domain
    && g.nodes[id].contextKey == later.nodes[id].contextKey
    && (g.nodes[id].status != Current ==>
          later.nodes[id] == g.nodes[id] && TagsOf(later, id) == TagsOf(g, id)
          && (id in g.tasks ==> id in later.tasks && later.tasks[id] == g.tasks[id]))
  }

  predicate EdgeExtends(g: Graph, later: Graph, id: EdgeId)
    requires id in g.edges
  {
    && id in later.edges
    && g.edges[id].revision <= later.edges[id].revision
    && g.edges[id].source == later.edges[id].source
    && g.edges[id].target == later.edges[id].target
    && (g.edges[id].status == Retired ==> later.edges[id] == g.edges[id])
  }

  lemma ExtendsTransitive(a: Graph, b: Graph, c: Graph)
    requires Extends(a, b) && Extends(b, c)
    ensures Extends(a, c)
  {
    forall id | id in a.nodes
      ensures NodeExtends(a, c, id)
    {
      assert NodeExtends(a, b, id) && NodeExtends(b, c, id);
    }
    forall id | id in a.edges
      ensures EdgeExtends(a, c, id)
    {
      assert EdgeExtends(a, b, id) && EdgeExtends(b, c, id);
    }
  }

  lemma NodeWriteExtends(g: Graph, id: NodeId, row: NodeRow, tags: TagSet, raws: seq<AnchorInput>, opens: bool,
                         payload: Payload, at: nat)
    requires id in g.nodes ==> && g.nodes[id].status == Current && g.nodes[id].revision <= row.revision
                               && (g.nodes[id].scope, g.nodes[id].domain, g.nodes[id].contextKey)
                                  == (row.scope, row.domain, row.contextKey)
    requires id !in g.nodes ==> !opens || id !in g.tasks
    ensures var r := WriteNode(g, id, row, tags, raws, opens, payload, at);
            r.Ok? ==> Extends(g, r.value)
  {
    NodeWriteFields(g, id, row, tags, raws, opens, payload, at);
  }

  lemma EdgeWriteExtends(g: Graph, id: EdgeId, row: EdgeRow, raws: seq<AnchorInput>, payload: Payload, at: nat)
    requires id in g.edges ==> && g.edges[id].status == Live && g.edges[id].revision <= row.revision
                               && g.edges[id].source == row.source && g.edges[id].target == row.target
    ensures var r := WriteEdge(g, id, row, raws, payload, at);
            r.Ok? ==> Extends(g, r.value)
  {
    StoredAnchors(g.(edges := g.edges[id := row]), EdgeEntity, id, row.revision, raws);
  }

  lemma CreateNodeExtends(g: Graph, op: Operation, at: nat)
    requires Valid(g) && op.CreateNode?
    ensures ApplyCreateNode(g, op, at).Ok? ==> Extends(g, ApplyCreateNode(g, op, at).value)
  {
    if ApplyCreateNode(g, op, at).Ok? {
      var row, tags := NewNodeRow(op, at).value, CleanTags(op.tags);
      NodeWriteExtends(g, op.id, row, AddTags(map[], tags), op.anchors, row.kind == "task",
                       CreationOf(row, tags), at);
    }
  }

  lemma UpdateNodeExtends(g: Graph, op: Operation, at: nat)
    requires op.UpdateNode?
    ensures ApplyUpdateNode(g, op, at).Ok? ==> Extends(g, ApplyUpdateNode(g, op, at).value)
  {
    if ApplyUpdateNode(g, op, at).Ok? {
      var id := FindCurrentNode(g, op.id, op.expected).value;
      var row := RevisedNodeRow(g.nodes[id], id in g.tasks, op, at).value;
      var added, removed := CleanTags(op.addTags), CleanTags(op.removeTags);
      NodeWriteExtends(g, id, row, RemoveTags(AddTags(TagsOf(g, id), added), removed), op.anchors,
                       row.kind == "task" && id !in g.tasks,
                       NodeUpdated(row.content, row.kind, row.retention, row.epistemic, row.recall, added,
                                   removed), at);
    }
  }

  lemma CloseExtends(g: Graph, id: NodeId, status: NodeStatus, replacement: Option<NodeId>, at: nat)
    requires id in g.nodes && g.nodes[id].status == Current
    ensures Close(g, id, status, replacement, at).Ok? ==> Extends(g, Close(g, id, status, replacement, at).value)
  {
    var row := g.nodes[id].(status := status, revision := g.nodes[id].revision + 1);
    assert Close(g, id, status, replacement, at) == WriteNode(g, id, row, TagsOf(g, id), [], false,
                                                              NodeClosed(status, replacement), at);
    NodeWriteExtends(g, id, row, TagsOf(g, id), [], false, NodeClosed(status, replacement), at);
  }

  lemma SupersedeExtends(g: Graph, op: Operation, at: nat)
    requires op.SupersedeNode?
    ensures ApplySupersede(g, op, at).Ok? ==> Extends(g, ApplySupersede(g, op, at).value)
  {
    if ApplySupersede(g, op, at).Ok? {
      var id := FindClosable(g, op.id, op.expected).value;
      var replacement := CleanText(op.replacement, "REPLACEMENT", Some(120)).value;
      var row := EdgeRow(id, "superseded_by", replacement, LIFECYCLE, None, Live, 1);
      var created := EdgeCreated(id, "superseded_by", replacement, None);
      EdgeWriteExtends(g, op.relationId, row, [], created, at);
      var g1 := WriteEdge(g, op.relationId, row, [], created, at).value;
      CloseExtends(g1, id, Superseded, Some(replacement), at);
      ExtendsTransitive(g, g1, ApplySupersede(g, op, at).value);
    }
  }

  lemma EdgeOperationExtends(g: Graph, op: Operation, at: nat)
    requires op.CreateEdge? || op.UpdateEdge? || op.RetireEdge?
    ensures Apply(g, op, at).Ok? ==> Extends(g, Apply(g, op, at).value)
  {
    if Apply(g, op, at).Ok? {
      if op.CreateEdge? {
        var source := CleanText(op.source, "SOURCE", Some(120)).value;
        var target := CleanText(op.target, "TARGET", Some(120)).value;
        var relation := CleanText(op.relation, "RELATION", Some(120)).value;
        var epistemic := op.epistemic.Or(RELATION, EpistemicInvalid).value;
        EdgeWriteExtends(g, op.id,
                         EdgeRow(source, relation, target, epistemic, Evidenced(op.anchors, at, None), Live, 1),
                         op.anchors, EdgeCreated(source, relation, target, Some(epistemic)), at);
      } else {
        var id := FindCurrentEdge(g, op.id, op.expected).value;
        var row := g.edges[id];
        if op.UpdateEdge? {
          var relation := Keep(op.relation, row.relation);
          var epistemic := op.epistemic.Or(row.epistemic, EpistemicInvalid).value;
          EdgeWriteExtends(g, id, row.(relation := relation, epistemic := epistemic,
                                       evidenced := Evidenced(op.anchors, at, row.evidenced),
                                       revision := row.revision + 1),
                           op.anchors, EdgeUpdated(relation, epistemic), at);
        } else {
          EdgeWriteExtends(g, id, row.(status := Retired, revision := row.revision + 1), [], EdgeRetired, at);
        }
      }
    }
  }

  lemma ApplyExtends(g: Graph, op: Operation, at: nat)
    requires Valid(g)
    ensures Apply(g, op, at).Ok? ==> Extends(g, Apply(g, op, at).value)
  {
    if op.CreateNode? {
      CreateNodeExtends(g, op, at);
    } else if op.UpdateNode? {
      UpdateNodeExtends(g, op, at);
    } else if op.ArchiveNode? {
      if FindClosable(g, op.id, op.expected).Ok? {
        CloseExtends(g, FindClosable(g, op.id, op.expected).value, Archived, None, at);
      }
    } else if op.SupersedeNode? {
      SupersedeExtends(g, op, at);
    } else if op.SetTaskStatus? {
      if ApplySetTaskStatus(g, op, at).Ok? {
        SetTaskStatusKeepsValid(g, op, at);
      }
    } else if op.CreateEdge? || op.UpdateEdge? || op.RetireEdge? {
      EdgeOperationExtends(g, op, at);
    }
  }

  lemma {:induction false} ApplyAllExtends(g: Graph, ops: seq<Operation>, at: nat)
    requires Valid(g)
    ensures ApplyAll(g, ops, at).Ok? ==> Extends(g, ApplyAll(g, ops, at).value)
    decreases |ops|
  {
    if ops != [] && ApplyAll(g, ops, at).Ok? {
      var g1 := Apply(g, ops[0], at).value;
      ApplyExtends(g, ops[0], at);
      ApplyKeepsValid(g, ops[0], at);
      ApplyAllExtends(g1, ops[1..], at);
      ExtendsTransitive(g, g1, ApplyAll(g, ops, at).value);
    }
  }

  lemma CommitExtends(g: Graph, change: Changeset)
    requires Valid(g)
    ensures Extends(g, Commit(g, change))
  {
    ApplyAllExtends(g, change.operations, change.at);
  }

  lemma RunAppend(history: seq<Changeset>, last: Changeset)
    ensures Run(history + [last]) == Commit(Run(history), last)
  {
    assert (history + [last])[..|history + [last]| - 1] == history;
  }

  lemma ExtendsReflexive(g: Graph)
    ensures Extends(g, g)
  {
  }

  /** Whatever a history recorded stays in the store of every longer history: pins keep naming existing
      revisions, and a task that closed with its node stays resolved or cancelled for ever. */
  lemma {:induction false} LaterHistoryExtends(history: seq<Changeset>, more: seq<Changeset>)
    ensures Extends(Run(history), Run(history + more))
    decreases |more|
  {
    if more == [] {
      assert history + more == history;
      ExtendsReflexive(Run(history));
    } else {
      var init, last := more[..|more| - 1], more[|more| - 1];
      assert history + more == history + init + [last];
      var g, middle, later := Run(history), Run(history + init), Run(history + more);
      LaterHistoryExtends(history, init);
      RunIsValid(history + init);
      RunAppend(history + init, last);
      CommitExtends(middle, last);
      ExtendsTransitive(g, middle, later);
    }
  }

  lemma ClosedTaskStaysClosed(history: seq<Changeset>, more: seq<Changeset>, id: NodeId)
    requires id in Run(history).tasks && id in Run(history).nodes && Run(history).nodes[id].status != Current
    ensures var later := Run(history + more);
            && id in later.tasks && Terminal(later.tasks[id].state)
            && later.tasks[id] == Run(history).tasks[id] && later.tasks[id].resolvedAt.Some?
  {
    RunIsValid(history);
    LaterHistoryExtends(history, more);
    assert NodeExtends(Run(history), Run(history + more), id);
  }

  /** A pin stored at any time names a revision its source really had, in every later store. */
  lemma StoredPinStaysSound(history: seq<Changeset>, more: seq<Changeset>, i: nat)
    requires i < |Run(history).anchors| && Pinned(Run(history).anchors[i])
    ensures var later := Run(history + more);
            var a := Run(history).anchors[i];
            && i < |later.anchors| && later.anchors[i] == a && a.sourceRef.Some?
            && SourceRevisionExists(later, a.kind, a.sourceRef.value, a.sourceRevision.value)
  {
    var later := Run(history + more);
    LaterHistoryExtends(history, more);
    RunIsValid(history + more);
    assert PinHolds(later, later.anchors[i]);
    var a := later.anchors[i];
    SourceRevisionExistsIsExact(later, a.kind, a.sourceRef.value, a.sourceRevision.value);
  }

  /** In a reachable store the lookup inside set_task_status always finds the task. */
  lemma TaskLookupNeverFails(history: seq<Changeset>, op: Operation, at: nat)
    requires op.SetTaskStatus?
    ensures Apply(Run(history), op, at) != Err(TaskNotFound)
  {
    RunIsValid(history);
  }
}
