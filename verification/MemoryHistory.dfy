/** What the event log and the anchors of a Memory Graph always say.

    Every operation writes rows through `WriteNode`, `WriteEdge` and `WriteTask`, so each invariant
    is proved once per kind of write, then for each operation, then for every history. */
module MemoryHistory {
  import opened Prelude
  import opened MemoryGraph

  // ---- replaying the log -----------------------------------------------------------------

  /** What a replay of an entity's events yields: nothing yet, its row, or an impossible history. */
  datatype Replay<+T> = Nothing | Row(value: T) | Broken

  /** A node's row and tags, without timestamps. */
  datatype NodeFacts = NodeFacts(
    scope: string, domain: Domain, contextKey: Option<string>, kind: string, content: string,
    retention: Retention, epistemic: Epistemic, recall: Recall, tags: TagSet,
    status: NodeStatus, revision: nat)

  datatype EdgeFacts = EdgeFacts(
    source: NodeId, relation: string, target: NodeId, epistemic: Epistemic, status: EdgeStatus, revision: nat)

  datatype TaskFacts = TaskFacts(state: TaskState, revision: nat)

  function Facts(row: NodeRow, tags: TagSet): NodeFacts {
    NodeFacts(row.scope, row.domain, row.contextKey, row.kind, row.content, row.retention, row.epistemic,
              row.recall, tags, row.status, row.revision)
  }

  /** A creation carries revision 1 and every later event the next revision; anything else breaks the history. */
  function ReplayNodeEvent(before: Replay<NodeFacts>, e: Event): Replay<NodeFacts>
    requires e.OfNode()
  {
    match e.payload
    case NodeCreated(scope, domain, key, kind, content, retention, epistemic, recall, tags) =>
      if before.Nothing? && e.revision == 1
      then Row(NodeFacts(scope, domain, key, kind, content, retention, epistemic, recall, AddTags(map[], tags),
                         Current, 1))
      else Broken
    case NodeUpdated(content, kind, retention, epistemic, recall, added, removed) =>
      if before.Row? && before.value.status == Current && e.revision == before.value.revision + 1
      then Row(before.value.(content := content, kind := kind, retention := retention, epistemic := epistemic,
                             recall := recall, tags := RemoveTags(AddTags(before.value.tags, added), removed),
                             revision := e.revision))
      else Broken
    case NodeClosed(status, _) =>
      if before.Row? && before.value.status == Current && e.revision == before.value.revision + 1
      then Row(before.value.(status := status, revision := e.revision))
      else Broken
  }

  function ReplayEdgeEvent(before: Replay<EdgeFacts>, e: Event): Replay<EdgeFacts>
    requires e.OfEdge()
  {
    match e.payload
    case EdgeCreated(source, relation, target, epistemic) =>
      if before.Nothing? && e.revision == 1
      then Row(EdgeFacts(source, relation, target, if epistemic.Some? then epistemic.value else LIFECYCLE, Live, 1))
      else Broken
    case EdgeUpdated(relation, epistemic) =>
      if before.Row? && before.value.status == Live && e.revision == before.value.revision + 1
      then Row(before.value.(relation := relation, epistemic := epistemic, revision := e.revision))
      else Broken
    case EdgeRetired =>
      if before.Row? && before.value.status == Live && e.revision == before.value.revision + 1
      then Row(before.value.(status := Retired, revision := e.revision))
      else Broken
  }

  /** Each move must start from the state the previous event left. */
  function ReplayTaskEvent(before: Replay<TaskFacts>, e: Event): Replay<TaskFacts>
    requires e.OfTask()
  {
    match e.payload
    case TaskOpened =>
      if before.Nothing? && e.revision == 1 then Row(TaskFacts(Active, 1)) else Broken
    case TaskMoved(from, to) =>
      if before.Row? && before.value.state == from != to && e.revision == before.value.revision + 1
      then Row(TaskFacts(to, e.revision))
      else Broken
  }

  function ReplayNode(log: seq<Event>, id: NodeId): Replay<NodeFacts> {
    if log == [] then Nothing
    else
      var before, e := ReplayNode(log[..|log| - 1], id), log[|log| - 1];
      if e.id == id && e.OfNode() then ReplayNodeEvent(before, e) else before
  }

  function ReplayEdge(log: seq<Event>, id: EdgeId): Replay<EdgeFacts> {
    if log == [] then Nothing
    else
      var before, e := ReplayEdge(log[..|log| - 1], id), log[|log| - 1];
      if e.id == id && e.OfEdge() then ReplayEdgeEvent(before, e) else before
  }

  function ReplayTask(log: seq<Event>, id: NodeId): Replay<TaskFacts> {
    if log == [] then Nothing
    else
      var before, e := ReplayTask(log[..|log| - 1], id), log[|log| - 1];
      if e.id == id && e.OfTask() then ReplayTaskEvent(before, e) else before
  }

  lemma ReplayAppend(log: seq<Event>, e: Event, id: string)
    ensures ReplayNode(log + [e], id) ==
            if e.id == id && e.OfNode() then ReplayNodeEvent(ReplayNode(log, id), e) else ReplayNode(log, id)
    ensures ReplayEdge(log + [e], id) ==
            if e.id == id && e.OfEdge() then ReplayEdgeEvent(ReplayEdge(log, id), e) else ReplayEdge(log, id)
    ensures ReplayTask(log + [e], id) ==
            if e.id == id && e.OfTask() then ReplayTaskEvent(ReplayTask(log, id), e) else ReplayTask(log, id)
  {
    assert (log + [e])[..|log + [e]| - 1] == log;
  }

  function NodeNow(g: Graph, id: NodeId): Replay<NodeFacts> {
    if id in g.nodes then Row(Facts(g.nodes[id], TagsOf(g, id))) else Nothing
  }

  function EdgeNow(g: Graph, id: EdgeId): Replay<EdgeFacts> {
    if id in g.edges then
      var row := g.edges[id];
      Row(EdgeFacts(row.source, row.relation, row.target, row.epistemic, row.status, row.revision))
    else Nothing
  }

  function TaskNow(g: Graph, id: NodeId): Replay<TaskFacts> {
    if id in g.tasks then Row(TaskFacts(g.tasks[id].state, g.tasks[id].revision)) else Nothing
  }

  /** Replaying the log under one id gives back exactly the rows under that id. */
  predicate Told(g: Graph, id: string) {
    && ReplayNode(g.log, id) == NodeNow(g, id)
    && ReplayEdge(g.log, id) == EdgeNow(g, id)
    && ReplayTask(g.log, id) == TaskNow(g, id)
  }

  /** The log is a full history: replaying it gives back every row, and nothing else. */
  ghost predicate HistoryComplete(g: Graph) {
    forall id :: Told(g, id)
  }

  // ---- tasks, pins and time --------------------------------------------------------------

  /** A task row exists exactly for the nodes of kind `task`; a node that is no longer current has a
      terminal task; `resolvedAt` is set exactly in the terminal states. */
  ghost predicate TasksConsistent(g: Graph) {
    && (forall id :: id in g.tasks <==> id in g.nodes && g.nodes[id].kind == "task")
    && (forall id :: id in g.tasks && g.nodes[id].status != Current ==> Terminal(g.tasks[id].state))
    && (forall id :: id in g.tasks ==> (g.tasks[id].resolvedAt.Some? <==> Terminal(g.tasks[id].state)))
  }

  predicate Pinned(a: Anchor) {
    (a.kind.MemoryAnchor? || a.kind.RelationAnchor?) && a.sourceRevision.Some?
  }

  /** A pin names a revision its source has or had; an anchor belongs to a revision its owner has or had. */
  predicate PinHolds(g: Graph, a: Anchor) {
    && (Pinned(a) ==> a.sourceRef.Some? && CurrentRevision(g, a.kind, a.sourceRef.value).Some?
                      && 1 <= a.sourceRevision.value <= CurrentRevision(g, a.kind, a.sourceRef.value).value)
    && (a.entity.NodeEntity? ==> a.id in g.nodes && 1 <= a.revision <= g.nodes[a.id].revision)
    && (a.entity.EdgeEntity? ==> a.id in g.edges && 1 <= a.revision <= g.edges[a.id].revision)
    && (a.sourceRevision.Some? ==> Pinned(a))
  }

  ghost predicate PinsHold(g: Graph) {
    forall i :: 0 <= i < |g.anchors| ==> PinHolds(g, g.anchors[i])
  }

  /** Position in the log of the last revision of a node, or -1. */
  function LastRevised(log: seq<Event>, id: NodeId): (t: int)
    ensures -1 <= t < |log|
  {
    if log == [] then -1
    else if log[|log| - 1].id == id && log[|log| - 1].OfNode() then |log| - 1
    else LastRevised(log[..|log| - 1], id)
  }

  lemma LastRevisedAppend(log: seq<Event>, e: Event, id: NodeId)
    ensures LastRevised(log + [e], id) == if e.id == id && e.OfNode() then |log| else LastRevised(log, id)
  {
    assert (log + [e])[..|log + [e]| - 1] == log;
  }

  /** A node's anchor pinned to another node that still has that revision: that node's revision came first. */
  predicate PinLooksBack(g: Graph, a: Anchor) {
    a.entity.NodeEntity? && a.kind.MemoryAnchor? && Pinned(a) && a.sourceRef.Some?
    && a.sourceRef.value in g.nodes && a.sourceRef.value != a.id
    && g.nodes[a.sourceRef.value].revision == a.sourceRevision.value
    ==> LastRevised(g.log, a.sourceRef.value) < LastRevised(g.log, a.id)
  }

  ghost predicate PinsLookBack(g: Graph) {
    forall i :: 0 <= i < |g.anchors| ==> PinLooksBack(g, g.anchors[i])
  }

  ghost predicate Valid(g: Graph) {
    && g.tags.Keys == g.nodes.Keys
    && (forall id :: id in g.edges ==> g.edges[id].source in g.nodes && g.edges[id].target in g.nodes)
    && HistoryComplete(g)
    && TasksConsistent(g)
    && PinsHold(g)
    && PinsLookBack(g)
  }

  // ---- the log-based revision check ------------------------------------------------------

  lemma {:induction false} NodeEventRevisions(log: seq<Event>, id: NodeId, r: nat)
    requires ReplayNode(log, id).Row?
    ensures Recorded(log, MemoryAnchor, id, r) <==> 1 <= r <= ReplayNode(log, id).value.revision
  {
    var shorter, e := log[..|log| - 1], log[|log| - 1];
    if e.id == id && e.OfNode() {
      if ReplayNode(shorter, id).Row? {
        NodeEventRevisions(shorter, id, r);
      } else {
        NoNodeEvents(shorter, id);
      }
      RecordsOfPrefix(log, MemoryAnchor, id, r);
    } else {
      NodeEventRevisions(shorter, id, r);
      RecordsOfPrefix(log, MemoryAnchor, id, r);
    }
  }

  lemma {:induction false} NoNodeEvents(log: seq<Event>, id: NodeId)
    requires ReplayNode(log, id).Nothing?
    ensures forall i :: 0 <= i < |log| ==> !(log[i].id == id && log[i].OfNode())
  {
    if log != [] {
      NoNodeEvents(log[..|log| - 1], id);
      assert forall i :: 0 <= i < |log| - 1 ==> log[i] == log[..|log| - 1][i];
    }
  }

  lemma {:induction false} EdgeEventRevisions(log: seq<Event>, id: EdgeId, r: nat)
    requires ReplayEdge(log, id).Row?
    ensures Recorded(log, RelationAnchor, id, r) <==> 1 <= r <= ReplayEdge(log, id).value.revision
  {
    var shorter, e := log[..|log| - 1], log[|log| - 1];
    if e.id == id && e.OfEdge() {
      if ReplayEdge(shorter, id).Row? {
        EdgeEventRevisions(shorter, id, r);
      } else {
        NoEdgeEvents(shorter, id);
      }
      RecordsOfPrefix(log, RelationAnchor, id, r);
    } else {
      EdgeEventRevisions(shorter, id, r);
      RecordsOfPrefix(log, RelationAnchor, id, r);
    }
  }

  lemma {:induction false} NoEdgeEvents(log: seq<Event>, id: EdgeId)
    requires ReplayEdge(log, id).Nothing?
    ensures forall i :: 0 <= i < |log| ==> !(log[i].id == id && log[i].OfEdge())
  {
    if log != [] {
      NoEdgeEvents(log[..|log| - 1], id);
      assert forall i :: 0 <= i < |log| - 1 ==> log[i] == log[..|log| - 1][i];
    }
  }

  lemma RecordsOfPrefix(log: seq<Event>, kind: AnchorKind, id: string, r: int)
    requires log != []
    ensures Recorded(log, kind, id, r) <==>
            Records(log[|log| - 1], kind, id, r) || Recorded(log[..|log| - 1], kind, id, r)
  {
    assert forall i :: 0 <= i < |log| - 1 ==> log[i] == log[..|log| - 1][i];
  }

  /** The check against the event log is exact: the revisions that existed are 1 up to the current one. */
  lemma SourceRevisionExistsIsExact(g: Graph, kind: AnchorKind, ref: string, r: int)
    requires HistoryComplete(g)
    ensures SourceRevisionExists(g, kind, ref, r) <==>
            CurrentRevision(g, kind, ref).Some? && 1 <= r <= CurrentRevision(g, kind, ref).value
  {
    if r >= 1 && CurrentRevision(g, kind, ref).Some? {
      if kind.MemoryAnchor? {
        assert Told(g, ref);
        NodeEventRevisions(g.log, ref, r);
      } else {
        assert Told(g, ref);
        EdgeEventRevisions(g.log, ref, r);
      }
    }
  }
}
