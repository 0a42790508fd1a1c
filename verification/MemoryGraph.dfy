/** The Memory Graph tables and what one operation of a changeset does to them.

    Operations are functions from one table state to the next, or to the error that aborts the
    whole changeset. `MemoryStore` holds the class that performs them in place. */
module MemoryGraph {
  import opened Prelude

  type NodeId = string
  type EdgeId = string

  /** A node's tags, keyed by their folded spelling: the primary key (node_id, tag NOCASE). */
  type TagSet = map<string, string>

  datatype Domain = Chat | Task | Eyle | Knowledge
  datatype Retention = Temporary | Persistent
  datatype NodeStatus = Current | Archived | Superseded
  datatype EdgeStatus = Live | Retired
  datatype TaskState = Active | Blocked | Resolved | Cancelled
  datatype Entity = NodeEntity | EdgeEntity
  datatype AnchorKind = MaterialAnchor | RequestAnchor | MemoryAnchor | RelationAnchor

  datatype Epistemic = Epistemic(
    nature: string, confidence: Option<real>, volatility: string, temporal: string, context: string)

  datatype Recall = Recall(aliases: seq<string>, concepts: seq<string>, cues: seq<string>)

  datatype Material = Material(
    capability: string, locator: string, version: string, contentHash: string, token: string, arguments: string)

  datatype NodeRow = NodeRow(
    scope: string, domain: Domain, contextKey: Option<string>, kind: string, content: string,
    retention: Retention, epistemic: Epistemic, recall: Recall, evidenced: Option<nat>,
    status: NodeStatus, revision: nat)

  datatype EdgeRow = EdgeRow(
    source: NodeId, relation: string, target: NodeId, epistemic: Epistemic, evidenced: Option<nat>,
    status: EdgeStatus, revision: nat)

  datatype TaskRow = TaskRow(state: TaskState, revision: nat, resolvedAt: Option<nat>)

  /** A stored provenance anchor of revision `revision` of `entity` `id`. */
  datatype Anchor = Anchor(
    entity: Entity, id: string, revision: nat, kind: AnchorKind,
    sourceRef: Option<string>, sourceRevision: Option<nat>, material: Material)

  /** An anchor as the caller wrote it. */
  datatype AnchorInput = AnchorInput(
    kind: Option<AnchorKind>, sourceRef: string, sourceRevision: Arg<int>, material: Material)

  datatype Payload =
    | NodeCreated(scope: string, domain: Domain, contextKey: Option<string>, kind: string, content: string,
                  retention: Retention, epistemic: Epistemic, recall: Recall, tags: seq<string>)
    | NodeUpdated(content: string, kind: string, retention: Retention, epistemic: Epistemic, recall: Recall,
                  addTags: seq<string>, removeTags: seq<string>)
    | NodeClosed(status: NodeStatus, replacement: Option<NodeId>)
    | EdgeCreated(source: NodeId, relation: string, target: NodeId, edgeEpistemic: Option<Epistemic>)
    | EdgeUpdated(relation: string, epistemic: Epistemic)
    | EdgeRetired
    | TaskOpened
    | TaskMoved(from: TaskState, to: TaskState)

  /** One row of memory_events; its sequence number is its position in the log. */
  datatype Event = Event(id: string, revision: nat, payload: Payload, at: nat) {
    predicate OfNode() { payload.NodeCreated? || payload.NodeUpdated? || payload.NodeClosed? }
    predicate OfEdge() { payload.EdgeCreated? || payload.EdgeUpdated? || payload.EdgeRetired? }
    predicate OfTask() { payload.TaskOpened? || payload.TaskMoved? }
  }

  datatype Graph = Graph(
    nodes: map<NodeId, NodeRow>, tags: map<NodeId, TagSet>, edges: map<EdgeId, EdgeRow>,
    tasks: map<NodeId, TaskRow>, anchors: seq<Anchor>, log: seq<Event>)

  datatype Operation =
    | CreateNode(id: NodeId, scope: string, domain: Arg<Domain>, contextKey: Arg<string>, kind: string,
                 content: string, retention: Arg<Retention>, epistemic: Arg<Epistemic>, recall: Arg<Recall>,
                 tags: seq<string>, anchors: seq<AnchorInput>)
    | UpdateNode(id: NodeId, expected: Option<int>, content: string, kind: string, retention: Arg<Retention>,
                 epistemic: Arg<Epistemic>, recall: Arg<Recall>, addRecall: Arg<Recall>, removeRecall: Arg<Recall>,
                 addTags: seq<string>, removeTags: seq<string>, anchors: seq<AnchorInput>)
    | ArchiveNode(id: NodeId, expected: Option<int>)
    | SupersedeNode(id: NodeId, expected: Option<int>, replacement: string, relationId: EdgeId)
    | SetTaskStatus(id: NodeId, expected: Option<int>, state: Option<TaskState>)
    | CreateEdge(id: EdgeId, source: string, relation: string, target: string, epistemic: Arg<Epistemic>,
                 anchors: seq<AnchorInput>)
    | UpdateEdge(id: EdgeId, expected: Option<int>, relation: string, epistemic: Arg<Epistemic>,
                 anchors: seq<AnchorInput>)
    | RetireEdge(id: EdgeId, expected: Option<int>)
    | Unrecognised

  datatype Error =
    | TextEmpty(text: string) | TextTooLarge(text: string)
    | NodeIdInvalid | EdgeIdInvalid | DomainInvalid | ContextKeyTooLarge | EpistemicInvalid
    | RetentionInvalid | RecallInvalid | IdConflict
    | NodeNotFound | EdgeNotFound | TaskNotFound
    | ExpectedRevisionRequired | RevisionConflict | NodeNotCurrent | EdgeNotCurrent
    | KindTooLarge | RelationTooLarge | TaskKindImmutable | TaskMustBeTerminal
    | TaskNodeInvalid | TaskStateRevisionConflict | TaskStateInvalid
    | AnchorKindInvalid | AnchorSourceRevisionInvalid | AnchorSourceRevisionNotFound
    | AnchorMemoryRefInvalid | AnchorRelationRefInvalid
    | OperationInvalid

  type Outcome = Result<Graph, Error>

  const EMPTY := Graph(map[], map[], map[], map[], [], [])
  const NO_RECALL := Recall([], [], [])
  const UNCLASSIFIED := Epistemic("unclassified", None, "unknown", "{}", "{}")
  const RELATION := Epistemic("relation", None, "unknown", "{}", "{}")
  const LIFECYCLE := Epistemic("lifecycle_relation", Some(1.0), "low", "{}", "{}")

  predicate Terminal(state: TaskState) {
    state.Resolved? || state.Cancelled?
  }

  // ---- cleaning the arguments ------------------------------------------------------------

  function CleanText(text: string, name: string, maximum: Option<nat>): Result<string, Error> {
    var s := Strip(text);
    if s == [] then Err(TextEmpty(name))
    else if maximum.Some? && |s| > maximum.value then Err(TextTooLarge(name))
    else Ok(s)
  }

  predicate IsIdChar(c: char) {
    'A' <= c <= 'Z' || 'a' <= c <= 'z' || '0' <= c <= '9' || c == '.' || c == '_' || c == '-'
  }

  predicate IsId(prefix: string, id: string) {
    && |id| > |prefix|
    && prefix <= id
    && forall i :: |prefix| <= i < |id| ==> IsIdChar(id[i])
  }

  function Folded(values: seq<string>): (folds: set<string>) {
    set v | v in values :: Fold(v)
  }

  /** Strips, drops blanks and keeps the first spelling of each folded value. */
  function CleanTags(values: seq<string>): seq<string> {
    CleanTagsAfter(values, {})
  }

  function CleanTagsAfter(values: seq<string>, seen: set<string>): seq<string> {
    if values == [] then []
    else
      var tag := Strip(values[0]);
      if tag == [] || Fold(tag) in seen then CleanTagsAfter(values[1..], seen)
      else [tag] + CleanTagsAfter(values[1..], seen + {Fold(tag)})
  }

  /** INSERT OR IGNORE of each tag. */
  function AddTags(tags: TagSet, added: seq<string>): TagSet
    decreases |added|
  {
    if added == [] then tags
    else AddTags(if Fold(added[0]) in tags then tags else tags[Fold(added[0]) := added[0]], added[1..])
  }

  function RemoveTags(tags: TagSet, removed: seq<string>): TagSet {
    tags - Folded(removed)
  }

  function Without(values: seq<string>, folds: set<string>): seq<string> {
    if values == [] then []
    else (if Fold(values[0]) in folds then [] else [values[0]]) + Without(values[1..], folds)
  }

  function Including(values: seq<string>, added: seq<string>): seq<string>
    decreases |added|
  {
    if added == [] then values
    else Including(if Fold(added[0]) in Folded(values) then values else values + [added[0]], added[1..])
  }

  function MergeCues(current: seq<string>, added: seq<string>, removed: seq<string>): seq<string> {
    Including(Without(current, Folded(removed)), added)
  }

  function MergeRecall(current: Recall, replacement: Arg<Recall>, added: Arg<Recall>, removed: Arg<Recall>)
    : Result<Recall, Error>
  {
    var base :- replacement.Or(current, RecallInvalid);
    var add :- added.Or(NO_RECALL, RecallInvalid);
    var remove :- removed.Or(NO_RECALL, RecallInvalid);
    Ok(Recall(MergeCues(base.aliases, add.aliases, remove.aliases),
              MergeCues(base.concepts, add.concepts, remove.concepts),
              MergeCues(base.cues, add.cues, remove.cues)))
  }

  /** The stripped text, or what is there already when it is blank. */
  function Keep(text: string, current: string): string {
    if Strip(text) == [] then current else Strip(text)
  }

  // ---- anchors ---------------------------------------------------------------------------

  function CurrentRevision(g: Graph, kind: AnchorKind, ref: string): Option<nat> {
    if kind.MemoryAnchor? && ref in g.nodes then Some(g.nodes[ref].revision)
    else if kind.RelationAnchor? && ref in g.edges then Some(g.edges[ref].revision)
    else None
  }

  predicate Records(e: Event, kind: AnchorKind, ref: string, revision: int) {
    && e.id == ref
    && e.revision == revision
    && (kind.MemoryAnchor? ==> e.OfNode())
    && (kind.RelationAnchor? ==> e.OfEdge())
  }

  predicate Recorded(log: seq<Event>, kind: AnchorKind, ref: string, revision: int) {
    exists i :: 0 <= i < |log| && Records(log[i], kind, ref, revision)
  }

  /** The log-based check that a pinned source revision existed. */
  predicate SourceRevisionExists(g: Graph, kind: AnchorKind, ref: string, revision: int) {
    && revision >= 1
    && CurrentRevision(g, kind, ref).Some?
    && (CurrentRevision(g, kind, ref).value == revision || Recorded(g.log, kind, ref, revision))
  }

  function CheckAnchor(g: Graph, entity: Entity, id: string, revision: nat, raw: AnchorInput): Result<Anchor, Error> {
    if raw.kind.None? then Err(AnchorKindInvalid)
    else
      var kind := raw.kind.value;
      var ref := Strip(raw.sourceRef);
      var source := if ref == [] then None else Some(ref);
      if raw.sourceRevision.Malformed? || (raw.sourceRevision.Given? && raw.sourceRevision.value < 1)
      then Err(AnchorSourceRevisionInvalid)
      else
        var pinned: Option<nat> := if raw.sourceRevision.Given? then Some(raw.sourceRevision.value) else None;
        if kind.MemoryAnchor? && !IsId("mem-", ref) then Err(AnchorMemoryRefInvalid)
        else if kind.RelationAnchor? && !IsId("rel-", ref) then Err(AnchorRelationRefInvalid)
        else if (kind.MemoryAnchor? || kind.RelationAnchor?) && pinned.Some?
                && !SourceRevisionExists(g, kind, ref, pinned.value)
        then Err(AnchorSourceRevisionNotFound)
        else if !kind.MemoryAnchor? && !kind.RelationAnchor? && pinned.Some? then Err(AnchorSourceRevisionInvalid)
        else Ok(Anchor(entity, id, revision, kind, source, pinned, raw.material))
  }

  function StoreAnchors(g: Graph, entity: Entity, id: string, revision: nat, raws: seq<AnchorInput>): Outcome
    decreases |raws|
  {
    if raws == [] then Ok(g)
    else
      var anchor :- CheckAnchor(g, entity, id, revision, raws[0]);
      StoreAnchors(g.(anchors := g.anchors + [anchor]), entity, id, revision, raws[1..])
  }

  // ---- the three kinds of row write ------------------------------------------------------

  function Logged(g: Graph, id: string, revision: nat, payload: Payload, at: nat): Graph {
    g.(log := g.log + [Event(id, revision, payload, at)])
  }

  function WriteTask(g: Graph, id: NodeId, row: TaskRow, payload: Payload, at: nat): Graph {
    Logged(g.(tasks := g.tasks[id := row]), id, row.revision, payload, at)
  }

  /** Writes a node row and its tags, stores the anchors of that revision, opens the node's task
      when `opens`, and logs the revision last. */
  function WriteNode(g: Graph, id: NodeId, row: NodeRow, tags: TagSet, raws: seq<AnchorInput>, opens: bool,
                     payload: Payload, at: nat): Outcome
  {
    var g1 := g.(nodes := g.nodes[id := row], tags := g.tags[id := tags]);
    var g2 :- StoreAnchors(g1, NodeEntity, id, row.revision, raws);
    var g3 := if opens then WriteTask(g2, id, TaskRow(Active, 1, None), TaskOpened, at) else g2;
    Ok(Logged(g3, id, row.revision, payload, at))
  }

  function WriteEdge(g: Graph, id: EdgeId, row: EdgeRow, raws: seq<AnchorInput>, payload: Payload, at: nat): Outcome {
    var g1 :- StoreAnchors(g.(edges := g.edges[id := row]), EdgeEntity, id, row.revision, raws);
    Ok(Logged(g1, id, row.revision, payload, at))
  }

  // ---- operations ------------------------------------------------------------------------

  function Evidenced(raws: seq<AnchorInput>, at: nat, current: Option<nat>): Option<nat> {
    if raws != [] then Some(at) else current
  }

  /** The current node an operation names, or the error that refuses it. */
  function FindCurrentNode(g: Graph, id: string, expected: Option<int>): (r: Result<NodeId, Error>)
    ensures r.Ok? ==> r.value in g.nodes && g.nodes[r.value].status == Current
                      && expected == Some(g.nodes[r.value].revision)
  {
    var node :- CleanText(id, "NODE_ID", Some(120));
    if node !in g.nodes then Err(NodeNotFound)
    else if expected.None? then Err(ExpectedRevisionRequired)
    else if g.nodes[node].revision != expected.value then Err(RevisionConflict)
    else if g.nodes[node].status != Current then Err(NodeNotCurrent)
    else Ok(node)
  }

  function FindCurrentEdge(g: Graph, id: string, expected: Option<int>): (r: Result<EdgeId, Error>)
    ensures r.Ok? ==> r.value in g.edges && g.edges[r.value].status == Live
                      && expected == Some(g.edges[r.value].revision)
  {
    var edge :- CleanText(id, "EDGE_ID", Some(120));
    if edge !in g.edges then Err(EdgeNotFound)
    else if expected.None? then Err(ExpectedRevisionRequired)
    else if g.edges[edge].revision != expected.value then Err(RevisionConflict)
    else if g.edges[edge].status != Live then Err(EdgeNotCurrent)
    else Ok(edge)
  }

  /** The row a create_node operation inserts. */
  function NewNodeRow(op: Operation, at: nat): Result<NodeRow, Error>
    requires op.CreateNode?
  {
    if !IsId("mem-", op.id) then Err(NodeIdInvalid)
    else
      var scope :- CleanText(op.scope, "SCOPE", Some(160));
      var kind :- CleanText(op.kind, "KIND", Some(96));
      var domain :- op.domain.Or(if kind == "task" then Task else Knowledge, DomainInvalid);
      var contextKey :- (match op.contextKey
                         case Absent => Ok(None)
                         case Malformed => Err(ContextKeyTooLarge)
                         case Given(key) => Ok(Some(key)));
      var content :- CleanText(op.content, "CONTENT", None);
      var epistemic :- op.epistemic.Or(UNCLASSIFIED, EpistemicInvalid);
      var retention :- op.retention.Or(Persistent, RetentionInvalid);
      var recall :- op.recall.Or(NO_RECALL, RecallInvalid);
      Ok(NodeRow(scope, if kind == "task" then Task else domain,
                 if kind == "task" && contextKey.None? then Some(op.id) else contextKey,
                 kind, content, retention, epistemic, recall, Evidenced(op.anchors, at, None), Current, 1))
  }

  function ApplyCreateNode(g: Graph, op: Operation, at: nat): Outcome
    requires op.CreateNode?
  {
    var row :- NewNodeRow(op, at);
    if op.id in g.nodes then Err(IdConflict)
    else
      var tags := CleanTags(op.tags);
      WriteNode(g, op.id, row, AddTags(map[], tags), op.anchors, row.kind == "task",
                NodeCreated(row.scope, row.domain, row.contextKey, row.kind, row.content, row.retention,
                            row.epistemic, row.recall, tags), at)
  }

  /** The row an update_node operation leaves; scope, domain and context key never change. */
  function RevisedNodeRow(row: NodeRow, hasTask: bool, op: Operation, at: nat): Result<NodeRow, Error>
    requires op.UpdateNode?
  {
    var content := Keep(op.content, row.content);
    var kind := Keep(op.kind, row.kind);
    if |kind| > 96 then Err(KindTooLarge)
    else if hasTask && kind != "task" then Err(TaskKindImmutable)
    else
      var epistemic :- op.epistemic.Or(row.epistemic, EpistemicInvalid);
      var recall :- MergeRecall(row.recall, op.recall, op.addRecall, op.removeRecall);
      var retention :- op.retention.Or(row.retention, RetentionInvalid);
      Ok(row.(kind := kind, content := content, retention := retention, epistemic := epistemic, recall := recall,
              evidenced := Evidenced(op.anchors, at, row.evidenced), revision := row.revision + 1))
  }

  function ApplyUpdateNode(g: Graph, op: Operation, at: nat): Outcome
    requires op.UpdateNode?
  {
    var id :- FindCurrentNode(g, op.id, op.expected);
    var row :- RevisedNodeRow(g.nodes[id], id in g.tasks, op, at);
    var added, removed := CleanTags(op.addTags), CleanTags(op.removeTags);
    WriteNode(g, id, row, RemoveTags(AddTags(TagsOf(g, id), added), removed), op.anchors,
              row.kind == "task" && id !in g.tasks,
              NodeUpdated(row.content, row.kind, row.retention, row.epistemic, row.recall, added, removed), at)
  }

  function TagsOf(g: Graph, id: NodeId): TagSet {
    if id in g.tags then g.tags[id] else map[]
  }

  /** A current node may close only when it has no open task. */
  function FindClosable(g: Graph, id: string, expected: Option<int>): (r: Result<NodeId, Error>)
    ensures r.Ok? ==> r.value in g.nodes && g.nodes[r.value].status == Current
                      && expected == Some(g.nodes[r.value].revision)
    ensures r.Ok? && r.value in g.tasks ==> Terminal(g.tasks[r.value].state)
  {
    var node :- FindCurrentNode(g, id, expected);
    if node in g.tasks && !Terminal(g.tasks[node].state) then Err(TaskMustBeTerminal) else Ok(node)
  }

  function Close(g: Graph, id: NodeId, status: NodeStatus, replacement: Option<NodeId>, at: nat): Outcome
    requires id in g.nodes
  {
    var row := g.nodes[id].(status := status, revision := g.nodes[id].revision + 1);
    WriteNode(g, id, row, TagsOf(g, id), [], false, NodeClosed(status, replacement), at)
  }

  function ApplyArchive(g: Graph, op: Operation, at: nat): Outcome
    requires op.ArchiveNode?
  {
    var id :- FindClosable(g, op.id, op.expected);
    Close(g, id, Archived, None, at)
  }

  function ApplySupersede(g: Graph, op: Operation, at: nat): Outcome
    requires op.SupersedeNode?
  {
    var id :- FindClosable(g, op.id, op.expected);
    var replacement :- CleanText(op.replacement, "REPLACEMENT", Some(120));
    if replacement !in g.nodes then Err(NodeNotFound)
    else if op.relationId in g.edges then Err(IdConflict)
    else
      var g1 :- WriteEdge(g, op.relationId, EdgeRow(id, "superseded_by", replacement, LIFECYCLE, None, Live, 1), [],
                          EdgeCreated(id, "superseded_by", replacement, None), at);
      Close(g1, id, Superseded, Some(replacement), at)
  }

  function ApplySetTaskStatus(g: Graph, op: Operation, at: nat): Outcome
    requires op.SetTaskStatus?
  {
    var id :- CleanText(op.id, "TASK_ID", Some(120));
    if id !in g.nodes then Err(NodeNotFound)
    else if g.nodes[id].status != Current || g.nodes[id].kind != "task" then Err(TaskNodeInvalid)
    else if id !in g.tasks then Err(TaskNotFound)
    else
      var task := g.tasks[id];
      if op.expected.None? || op.expected.value < 1 || task.revision != op.expected.value
      then Err(TaskStateRevisionConflict)
      else if op.state.None? then Err(TaskStateInvalid)
      else if task.state == op.state.value then Ok(g)
      else
        var state := op.state.value;
        Ok(WriteTask(g, id, TaskRow(state, task.revision + 1, if Terminal(state) then Some(at) else None),
                     TaskMoved(task.state, state), at))
  }

  function ApplyCreateEdge(g: Graph, op: Operation, at: nat): Outcome
    requires op.CreateEdge?
  {
    if !IsId("rel-", op.id) then Err(EdgeIdInvalid)
    else
      var source :- CleanText(op.source, "SOURCE", Some(120));
      var target :- CleanText(op.target, "TARGET", Some(120));
      var relation :- CleanText(op.relation, "RELATION", Some(120));
      var epistemic :- op.epistemic.Or(RELATION, EpistemicInvalid);
      if source !in g.nodes || target !in g.nodes then Err(NodeNotFound)
      else if op.id in g.edges then Err(IdConflict)
      else
        WriteEdge(g, op.id, EdgeRow(source, relation, target, epistemic, Evidenced(op.anchors, at, None), Live, 1),
                  op.anchors, EdgeCreated(source, relation, target, Some(epistemic)), at)
  }

  function ApplyUpdateEdge(g: Graph, op: Operation, at: nat): Outcome
    requires op.UpdateEdge?
  {
    var id :- FindCurrentEdge(g, op.id, op.expected);
    var row := g.edges[id];
    var relation := Keep(op.relation, row.relation);
    if |relation| > 120 then Err(RelationTooLarge)
    else
      var epistemic :- op.epistemic.Or(row.epistemic, EpistemicInvalid);
      WriteEdge(g, id, row.(relation := relation, epistemic := epistemic,
                            evidenced := Evidenced(op.anchors, at, row.evidenced), revision := row.revision + 1),
                op.anchors, EdgeUpdated(relation, epistemic), at)
  }

  function ApplyRetireEdge(g: Graph, op: Operation, at: nat): Outcome
    requires op.RetireEdge?
  {
    var id :- FindCurrentEdge(g, op.id, op.expected);
    var row := g.edges[id];
    WriteEdge(g, id, row.(status := Retired, revision := row.revision + 1), [], EdgeRetired, at)
  }

  function Apply(g: Graph, op: Operation, at: nat): Outcome {
    if op.CreateNode? then ApplyCreateNode(g, op, at)
    else if op.UpdateNode? then ApplyUpdateNode(g, op, at)
    else if op.ArchiveNode? then ApplyArchive(g, op, at)
    else if op.SupersedeNode? then ApplySupersede(g, op, at)
    else if op.SetTaskStatus? then ApplySetTaskStatus(g, op, at)
    else if op.CreateEdge? then ApplyCreateEdge(g, op, at)
    else if op.UpdateEdge? then ApplyUpdateEdge(g, op, at)
    else if op.RetireEdge? then ApplyRetireEdge(g, op, at)
    else Err(OperationInvalid)
  }

  /** The operations of one changeset, in order; the first failure aborts the rest. */
  function ApplyAll(g: Graph, ops: seq<Operation>, at: nat): Outcome
    decreases |ops|
  {
    if ops == [] then Ok(g)
    else
      var g1 :- Apply(g, ops[0], at);
      ApplyAll(g1, ops[1..], at)
  }

  datatype Changeset = Changeset(operations: seq<Operation>, at: nat)

  /** A changeset that fails is rolled back as a whole. */
  function Commit(g: Graph, change: Changeset): Graph {
    match ApplyAll(g, change.operations, change.at)
    case Ok(g1) => g1
    case Err(_) => g
  }

  /** The store after a history of changesets, oldest first. */
  function Run(history: seq<Changeset>): Graph {
    if history == [] then EMPTY
    else Commit(Run(history[..|history| - 1]), history[|history| - 1])
  }
}
