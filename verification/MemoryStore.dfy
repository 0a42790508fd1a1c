/** The Memory Graph store: its tables changed in place, one transaction per changeset, and the
    text index kept in step once per changeset. */
module MemoryStore {
  import opened Prelude
  import opened MemoryGraph

  /** One row of memory_fts. */
  datatype IndexRow = IndexRow(id: NodeId, content: string, kind: string, nature: string, volatility: string,
                               temporal: string, context: string, tags: TagSet, recall: Recall)

  const CHUNK_SIZE := 400

  // ---- the index as a bag of rows --------------------------------------------------------

  function RowsOf(rows: seq<IndexRow>, id: NodeId): seq<IndexRow> {
    if rows == [] then []
    else (if rows[0].id == id then [rows[0]] else []) + RowsOf(rows[1..], id)
  }

  function DeleteRows(rows: seq<IndexRow>, ids: seq<NodeId>): seq<IndexRow> {
    if rows == [] then []
    else (if rows[0].id in ids then [] else [rows[0]]) + DeleteRows(rows[1..], ids)
  }

  lemma {:induction false} RowsOfAppend(a: seq<IndexRow>, b: seq<IndexRow>, id: NodeId)
    ensures RowsOf(a + b, id) == RowsOf(a, id) + RowsOf(b, id)
  {
    if a == [] {
      assert a + b == b;
    } else {
      var tail := a[1..];
      RowsOfAppend(tail, b, id);
      assert a + b == [a[0]] + (tail + b);
      RowsOfCons(a[0], tail + b, id);
      assert a == [a[0]] + tail;
      RowsOfCons(a[0], tail, id);
    }
  }

  lemma RowsOfCons(row: IndexRow, rest: seq<IndexRow>, id: NodeId)
    ensures RowsOf([row] + rest, id) == (if row.id == id then [row] else []) + RowsOf(rest, id)
  {
    assert ([row] + rest)[1..] == rest;
  }

  lemma {:induction false} RowsOfDeleted(rows: seq<IndexRow>, ids: seq<NodeId>, id: NodeId)
    ensures RowsOf(DeleteRows(rows, ids), id) == if id in ids then [] else RowsOf(rows, id)
  {
    if rows != [] {
      RowsOfDeleted(rows[1..], ids, id);
      var kept := if rows[0].id in ids then [] else [rows[0]];
      RowsOfAppend(kept, DeleteRows(rows[1..], ids), id);
    }
  }

  function IndexRowOf(id: NodeId, row: NodeRow, tags: TagSet): IndexRow {
    IndexRow(id, row.content, row.kind, row.epistemic.nature, row.epistemic.volatility, row.epistemic.temporal,
             row.epistemic.context, tags, row.recall)
  }

  /** What a rebuild from scratch would hold under one id: the row of a current node, and nothing else. */
  function Rebuilt(nodes: map<NodeId, NodeRow>, tags: map<NodeId, TagSet>, id: NodeId): seq<IndexRow> {
    if id in nodes && nodes[id].status == Current
    then [IndexRowOf(id, nodes[id], if id in tags then tags[id] else map[])]
    else []
  }

  /** The index is the same bag of rows as a rebuild from scratch. */
  ghost predicate IndexExact(rows: seq<IndexRow>, nodes: map<NodeId, NodeRow>, tags: map<NodeId, TagSet>) {
    forall id :: RowsOf(rows, id) == Rebuilt(nodes, tags, id)
  }

  /** In an exact index a current node has one row, with its own content, kind, epistemic columns, tags and recall cues;
      any other id has none. */
  lemma ExactIndexCarries(rows: seq<IndexRow>, nodes: map<NodeId, NodeRow>, tags: map<NodeId, TagSet>, id: NodeId)
    requires IndexExact(rows, nodes, tags)
    ensures id in nodes && nodes[id].status == Current && id in tags ==>
              exists row :: && RowsOf(rows, id) == [row] && row.id == id && row.content == nodes[id].content
                            && row.kind == nodes[id].kind && row.tags == tags[id] && row.recall == nodes[id].recall
                            && row.nature == nodes[id].epistemic.nature && row.context == nodes[id].epistemic.context
                            && row.volatility == nodes[id].epistemic.volatility
                            && row.temporal == nodes[id].epistemic.temporal
    ensures id !in nodes || nodes[id].status != Current ==> RowsOf(rows, id) == []
  {
    if id in nodes && nodes[id].status == Current && id in tags {
      assert RowsOf(rows, id) == [IndexRowOf(id, nodes[id], tags[id])];
    }
  }

  // ---- what one operation touches --------------------------------------------------------

  /** The node whose index row an operation makes out of date. */
  datatype Touched = Untouched | NewNode(id: NodeId) | OldNode(id: NodeId)

  function Touches(op: Operation): Touched {
    if op.CreateNode? then NewNode(op.id)
    else if op.UpdateNode? || op.ArchiveNode? || op.SupersedeNode? then OldNode(Strip(op.id))
    else Untouched
  }

  lemma StoringAnchorsKeepsRows(g: Graph, entity: Entity, id: string, revision: nat, raws: seq<AnchorInput>)
    ensures var r := StoreAnchors(g, entity, id, revision, raws);
            r.Ok? ==> r.value == g.(anchors := r.value.anchors)
    decreases |raws|
  {
  }

  /** From `g` to `r`, only the row and tags of the touched node changed. */
  predicate OnlyTouched(g: Graph, r: Graph, touched: Touched) {
    match touched
    case NewNode(id) => id !in g.nodes && ChangedAt(g, r, id)
    case OldNode(id) => id in g.nodes && ChangedAt(g, r, id)
    case Untouched => r.nodes == g.nodes && r.tags == g.tags
  }

  predicate ChangedAt(g: Graph, r: Graph, id: NodeId) {
    && id in r.nodes && r.nodes == g.nodes[id := r.nodes[id]]
    && id in r.tags && r.tags == g.tags[id := r.tags[id]]
  }

  lemma WriteNodeTouches(g: Graph, id: NodeId, row: NodeRow, tags: TagSet, raws: seq<AnchorInput>, opens: bool,
                         payload: Payload, at: nat)
    ensures var r := WriteNode(g, id, row, tags, raws, opens, payload, at);
            r.Ok? ==> ChangedAt(g, r.value, id)
  {
    StoringAnchorsKeepsRows(g.(nodes := g.nodes[id := row], tags := g.tags[id := tags]), NodeEntity, id, row.revision,
                            raws);
  }

  lemma CreateTouches(g: Graph, op: Operation, at: nat)
    requires op.CreateNode? && Apply(g, op, at).Ok?
    ensures OnlyTouched(g, Apply(g, op, at).value, Touches(op))
  {
    var row, tags := NewNodeRow(op, at).value, CleanTags(op.tags);
    WriteNodeTouches(g, op.id, row, AddTags(map[], tags), op.anchors, row.kind == "task",
                     NodeCreated(row.scope, row.domain, row.contextKey, row.kind, row.content, row.retention,
                                 row.epistemic, row.recall, tags), at);
  }

  lemma UpdateTouches(g: Graph, op: Operation, at: nat)
    requires op.UpdateNode? && Apply(g, op, at).Ok?
    ensures OnlyTouched(g, Apply(g, op, at).value, Touches(op))
  {
    var id := FindCurrentNode(g, op.id, op.expected).value;
    var row := RevisedNodeRow(g.nodes[id], id in g.tasks, op, at).value;
    var added, removed := CleanTags(op.addTags), CleanTags(op.removeTags);
    WriteNodeTouches(g, id, row, RemoveTags(AddTags(TagsOf(g, id), added), removed), op.anchors,
                     row.kind == "task" && id !in g.tasks,
                     NodeUpdated(row.content, row.kind, row.retention, row.epistemic, row.recall, added, removed), at);
  }

  lemma OperationTouches(g: Graph, op: Operation, at: nat)
    requires Apply(g, op, at).Ok?
    ensures OnlyTouched(g, Apply(g, op, at).value, Touches(op))
  {
    if op.CreateNode? {
      CreateTouches(g, op, at);
    } else if op.UpdateNode? {
      UpdateTouches(g, op, at);
    } else if op.CreateEdge? || op.UpdateEdge? || op.RetireEdge? {
      EdgesKeepNodes(g, op, at);
    }
  }

  lemma EdgesKeepNodes(g: Graph, op: Operation, at: nat)
    requires Apply(g, op, at).Ok? && (op.CreateEdge? || op.UpdateEdge? || op.RetireEdge?)
    ensures Apply(g, op, at).value.nodes == g.nodes && Apply(g, op, at).value.tags == g.tags
  {
    if op.CreateEdge? {
      var source := CleanText(op.source, "SOURCE", Some(120)).value;
      var target := CleanText(op.target, "TARGET", Some(120)).value;
      var relation := CleanText(op.relation, "RELATION", Some(120)).value;
      var epistemic := op.epistemic.Or(RELATION, EpistemicInvalid).value;
      var row := EdgeRow(source, relation, target, epistemic, Evidenced(op.anchors, at, None), Live, 1);
      StoringAnchorsKeepsRows(g.(edges := g.edges[op.id := row]), EdgeEntity, op.id, 1, op.anchors);
    } else if op.UpdateEdge? {
      var id := FindCurrentEdge(g, op.id, op.expected).value;
      var row := g.edges[id].(relation := Keep(op.relation, g.edges[id].relation),
                              epistemic := op.epistemic.Or(g.edges[id].epistemic, EpistemicInvalid).value,
                              evidenced := Evidenced(op.anchors, at, g.edges[id].evidenced),
                              revision := g.edges[id].revision + 1);
      StoringAnchorsKeepsRows(g.(edges := g.edges[id := row]), EdgeEntity, id, row.revision, op.anchors);
    }
  }

  predicate SameNode(g: Graph, r: Graph, x: NodeId) {
    && (x in g.nodes <==> x in r.nodes)
    && (x in g.nodes ==> g.nodes[x] == r.nodes[x])
    && TagsOf(g, x) == TagsOf(r, x)
  }

  /** Where a half-done changeset stands: nodes outside the two accumulators are as they were. */
  ghost predicate Tracked(start: Graph, now: Graph, created: set<NodeId>, revised: set<NodeId>) {
    && (forall x :: x in created ==> x !in start.nodes)
    && (forall x :: x !in created && x !in revised ==> SameNode(start, now, x))
    && (forall x :: x in created ==> x in now.nodes)
  }

  lemma TrackedStep(start: Graph, now: Graph, created: set<NodeId>, revised: set<NodeId>, op: Operation, at: nat)
    requires Tracked(start, now, created, revised) && Apply(now, op, at).Ok?
    requires forall x :: x in revised ==> x in now.nodes
    ensures var next := Apply(now, op, at).value;
            var created' := if Touches(op).NewNode? then created + {Touches(op).id} else created;
            var revised' := if Touches(op).OldNode? then revised + {Touches(op).id} else revised;
            && Tracked(start, next, created', revised')
            && forall x :: x in revised' ==> x in next.nodes
  {
    OperationTouches(now, op, at);
    TrackedAfter(start, now, Apply(now, op, at).value, created, revised, Touches(op));
  }

  lemma TrackedAfter(start: Graph, now: Graph, next: Graph, created: set<NodeId>, revised: set<NodeId>,
                     touched: Touched)
    requires Tracked(start, now, created, revised) && OnlyTouched(now, next, touched)
    requires forall x :: x in revised ==> x in now.nodes
    ensures var created' := if touched.NewNode? then created + {touched.id} else created;
            var revised' := if touched.OldNode? then revised + {touched.id} else revised;
            && Tracked(start, next, created', revised')
            && forall x :: x in revised' ==> x in next.nodes
  {
  }

  lemma RefreshedIsExact(start: Graph, now: Graph, created: set<NodeId>, revised: set<NodeId>,
                         before: seq<IndexRow>, after: seq<IndexRow>)
    requires Tracked(start, now, created, revised)
    requires IndexExact(before, start.nodes, start.tags)
    requires forall id :: RowsOf(after, id)
                          == if id in created + revised then Rebuilt(now.nodes, now.tags, id) else RowsOf(before, id)
    ensures IndexExact(after, now.nodes, now.tags)
  {
    forall id
      ensures RowsOf(after, id) == Rebuilt(now.nodes, now.tags, id)
    {
      if id !in created + revised {
        assert SameNode(start, now, id);
        assert RowsOf(before, id) == Rebuilt(start.nodes, start.tags, id);
      }
    }
  }

  // ---- the store -------------------------------------------------------------------------

  class GraphStore {
    var nodes: map<NodeId, NodeRow>
    var tags: map<NodeId, TagSet>
    var edges: map<EdgeId, EdgeRow>
    var tasks: map<NodeId, TaskRow>
    var anchors: seq<Anchor>
    var log: seq<Event>
    var index: seq<IndexRow>
    const searchable: bool  // whether SQLite has FTS5

    constructor (searchable: bool)
      ensures Tables() == EMPTY && Indexed() && this.searchable == searchable
    {
      nodes, tags, edges, tasks, anchors, log, index := map[], map[], map[], map[], [], [], [];
      this.searchable := searchable;
    }

    ghost function Tables(): Graph
      reads this
    {
      Graph(nodes, tags, edges, tasks, anchors, log)
    }

    /** With FTS5 the index equals a rebuild from scratch; without it there is no index. */
    ghost predicate Indexed()
      reads this
    {
      if searchable then IndexExact(index, nodes, tags) else index == []
    }

    method InsertAnchors(entity: Entity, id: string, revision: nat, raws: seq<AnchorInput>)
      returns (failure: Option<Error>)
      modifies `anchors
      ensures match StoreAnchors(old(Tables()), entity, id, revision, raws)
              case Ok(g) => failure == None && Tables() == g
              case Err(e) => failure == Some(e)
    {
      for i := 0 to |raws|
        invariant StoreAnchors(old(Tables()), entity, id, revision, raws)
                  == StoreAnchors(Tables(), entity, id, revision, raws[i..])
      {
        assert raws[i..][0] == raws[i] && raws[i..][1..] == raws[i + 1..];
        var checked := CheckAnchor(Graph(nodes, tags, edges, tasks, anchors, log), entity, id, revision, raws[i]);
        if checked.Err? {
          return Some(checked.error);
        }
        anchors := anchors + [checked.value];
      }
      return None;
    }

    method LogEvent(id: string, revision: nat, payload: Payload, at: nat)
      modifies `log
      ensures log == old(log) + [Event(id, revision, payload, at)]
    {
      log := log + [Event(id, revision, payload, at)];
    }

    method OpenTask(id: NodeId, at: nat)
      modifies `tasks, `log
      ensures tasks == old(tasks)[id := TaskRow(Active, 1, None)]
      ensures log == old(log) + [Event(id, 1, TaskOpened, at)]
    {
      tasks := tasks[id := TaskRow(Active, 1, None)];
      LogEvent(id, 1, TaskOpened, at);
    }

    method CreateNode(op: Operation, at: nat) returns (failure: Option<Error>)
      requires op.CreateNode?
      modifies `nodes, `tags, `tasks, `anchors, `log
      ensures match ApplyCreateNode(old(Tables()), op, at)
              case Ok(g) => failure == None && Tables() == g
              case Err(e) => failure == Some(e)
    {
      var checked := NewNodeRow(op, at);
      if checked.Err? {
        return Some(checked.error);
      }
      if op.id in nodes {
        return Some(IdConflict);
      }
      var row, cleaned := checked.value, CleanTags(op.tags);
      nodes := nodes[op.id := row];
      tags := tags[op.id := AddTags(map[], cleaned)];
      var payload := NodeCreated(row.scope, row.domain, row.contextKey, row.kind, row.content, row.retention,
                                 row.epistemic, row.recall, cleaned);
      failure := RecordNode(op.id, row, op.anchors, row.kind
                            == "task", payload, at, old(Tables()), AddTags(map[], cleaned));
    }

    method UpdateNode(op: Operation, at: nat) returns (failure: Option<Error>)
      requires op.UpdateNode?
      modifies `nodes, `tags, `tasks, `anchors, `log
      ensures match ApplyUpdateNode(old(Tables()), op, at)
              case Ok(g) => failure == None && Tables() == g
              case Err(e) => failure == Some(e)
    {
      var found := FindCurrentNode(Graph(nodes, tags, edges, tasks, anchors, log), op.id, op.expected);
      if found.Err? {
        return Some(found.error);
      }
      var id := found.value;
      var hasTask := id in tasks;
      var revised := RevisedNodeRow(nodes[id], hasTask, op, at);
      if revised.Err? {
        return Some(revised.error);
      }
      var row := revised.value;
      nodes := nodes[id := row];
      var added, removed := CleanTags(op.addTags), CleanTags(op.removeTags);
      var own := if id in tags then tags[id] else map[];
      own := AddTags(own, added);
      own := RemoveTags(own, removed);
      tags := tags[id := own];
      var payload := NodeUpdated(row.content, row.kind, row.retention, row.epistemic, row.recall, added, removed);
      failure := RecordNode(id, row, op.anchors, row.kind == "task" && !hasTask, payload, at, old(Tables()), own);
    }

    /** Completes the write of a node row and its tags: its anchors, its task if it opens one, and its event. */
    method RecordNode(id: NodeId, row: NodeRow, raws: seq<AnchorInput>, opens: bool, payload: Payload, at: nat,
                      ghost start: Graph, ghost own: TagSet) returns (failure: Option<Error>)
      requires Tables() == start.(nodes := start.nodes[id := row], tags := start.tags[id := own])
      modifies `tasks, `anchors, `log
      ensures match WriteNode(start, id, row, own, raws, opens, payload, at)
              case Ok(g) => failure == None && Tables() == g
              case Err(e) => failure == Some(e)
    {
      failure := InsertAnchors(NodeEntity, id, row.revision, raws);
      if failure.Some? {
        return;
      }
      if opens {
        OpenTask(id, at);
      }
      LogEvent(id, row.revision, payload, at);
    }

    /** Writes the closed status of a node and returns its new revision. */
    method MarkClosed(id: NodeId, status: NodeStatus) returns (revision: nat)
      requires id in nodes
      modifies `nodes, `tags
      ensures revision == old(nodes)[id].revision + 1
      ensures nodes == old(nodes)[id := old(nodes)[id].(status := status, revision := revision)]
      ensures tags == old(tags)[id := TagsOf(old(Tables()), id)]
    {
      revision := nodes[id].revision + 1;
      nodes := nodes[id := nodes[id].(status := status, revision := revision)];
      tags := tags[id := if id in tags then tags[id] else map[]];
    }

    method ArchiveNode(op: Operation, at: nat) returns (failure: Option<Error>)
      requires op.ArchiveNode?
      modifies `nodes, `tags, `log
      ensures match ApplyArchive(old(Tables()), op, at)
              case Ok(g) => failure == None && Tables() == g
              case Err(e) => failure == Some(e)
    {
      var found := FindClosable(Graph(nodes, tags, edges, tasks, anchors, log), op.id, op.expected);
      if found.Err? {
        return Some(found.error);
      }
      var revision := MarkClosed(found.value, Archived);
      LogEvent(found.value, revision, NodeClosed(Archived, None), at);
      return None;
    }

    method SupersedeNode(op: Operation, at: nat) returns (failure: Option<Error>)
      requires op.SupersedeNode?
      modifies `nodes, `tags, `edges, `log
      ensures match ApplySupersede(old(Tables()), op, at)
              case Ok(g) => failure == None && Tables() == g
              case Err(e) => failure == Some(e)
    {
      var found := FindClosable(Graph(nodes, tags, edges, tasks, anchors, log), op.id, op.expected);
      if found.Err? {
        return Some(found.error);
      }
      var revision := MarkClosed(found.value, Superseded);
      failure := LinkSuccessor(found.value, op, at);
      if failure.Some? {
        return;
      }
      ghost var linked := old(Tables()).(edges := edges, log := log);
      assert ApplySupersede(old(Tables()), op, at) == Close(linked, found.value, Superseded,
                                                            Some(Strip(op.replacement)), at);
      LogEvent(found.value, revision, NodeClosed(Superseded, Some(Strip(op.replacement))), at);
      return None;
    }

    /** Adds and logs the `superseded_by` edge of a node being closed. */
    method LinkSuccessor(id: NodeId, op: Operation, at: nat) returns (failure: Option<Error>)
      requires op.SupersedeNode?
      modifies `edges, `log
      ensures match CleanText(op.replacement, "REPLACEMENT", Some(120))
              case Err(e) => failure == Some(e)
              case Ok(replacement) =>
                if replacement !in nodes then failure == Some(NodeNotFound)
                else if op.relationId in old(edges) then failure == Some(IdConflict)
                else && failure == None
                     && edges == old(edges)[op.relationId := EdgeRow(id, "superseded_by", replacement, LIFECYCLE, None,
                                                                     Live, 1)]
                     && log == old(log) + [Event(op.relationId, 1, EdgeCreated(id, "superseded_by", replacement, None),
                                                 at)]
    {
      var replacement := CleanText(op.replacement, "REPLACEMENT", Some(120));
      if replacement.Err? {
        return Some(replacement.error);
      }
      if replacement.value !in nodes {
        return Some(NodeNotFound);
      }
      if op.relationId in edges {
        return Some(IdConflict);
      }
      edges := edges[op.relationId := EdgeRow(id, "superseded_by", replacement.value, LIFECYCLE, None, Live, 1)];
      LogEvent(op.relationId, 1, EdgeCreated(id, "superseded_by", replacement.value, None), at);
      return None;
    }

    method SetTaskStatus(op: Operation, at: nat) returns (failure: Option<Error>)
      requires op.SetTaskStatus?
      modifies `tasks, `log
      ensures match ApplySetTaskStatus(old(Tables()), op, at)
              case Ok(g) => failure == None && Tables() == g
              case Err(e) => failure == Some(e)
    {
      var cleaned := CleanText(op.id, "TASK_ID", Some(120));
      if cleaned.Err? {
        return Some(cleaned.error);
      }
      var id := cleaned.value;
      if id !in nodes {
        return Some(NodeNotFound);
      }
      if nodes[id].status != Current || nodes[id].kind != "task" {
        return Some(TaskNodeInvalid);
      }
      if id !in tasks {
        return Some(TaskNotFound);
      }
      var task := tasks[id];
      if op.expected.None? || op.expected.value < 1 || task.revision != op.expected.value {
        return Some(TaskStateRevisionConflict);
      }
      if op.state.None? {
        return Some(TaskStateInvalid);
      }
      if task.state == op.state.value {
        return None;
      }
      var resolvedAt := if Terminal(op.state.value) then Some(at) else None;
      tasks := tasks[id := TaskRow(op.state.value, task.revision + 1, resolvedAt)];
      LogEvent(id, task.revision + 1, TaskMoved(task.state, op.state.value), at);
      return None;
    }

    method CreateEdge(op: Operation, at: nat) returns (failure: Option<Error>)
      requires op.CreateEdge?
      modifies `edges, `anchors, `log
      ensures match ApplyCreateEdge(old(Tables()), op, at)
              case Ok(g) => failure == None && Tables() == g
              case Err(e) => failure == Some(e)
    {
      if !IsId("rel-", op.id) {
        return Some(EdgeIdInvalid);
      }
      var source := CleanText(op.source, "SOURCE", Some(120));
      if source.Err? {
        return Some(source.error);
      }
      var target := CleanText(op.target, "TARGET", Some(120));
      if target.Err? {
        return Some(target.error);
      }
      var relation := CleanText(op.relation, "RELATION", Some(120));
      if relation.Err? {
        return Some(relation.error);
      }
      var epistemic := op.epistemic.Or(RELATION, EpistemicInvalid);
      if epistemic.Err? {
        return Some(epistemic.error);
      }
      if source.value !in nodes || target.value !in nodes {
        return Some(NodeNotFound);
      }
      if op.id in edges {
        return Some(IdConflict);
      }
      edges := edges[op.id := EdgeRow(source.value, relation.value, target.value, epistemic.value,
                                      Evidenced(op.anchors, at, None), Live, 1)];
      failure := InsertAnchors(EdgeEntity, op.id, 1, op.anchors);
      if failure.Some? {
        return;
      }
      LogEvent(op.id, 1, EdgeCreated(source.value, relation.value, target.value, Some(epistemic.value)), at);
    }

    method UpdateEdge(op: Operation, at: nat) returns (failure: Option<Error>)
      requires op.UpdateEdge?
      modifies `edges, `anchors, `log
      ensures match ApplyUpdateEdge(old(Tables()), op, at)
              case Ok(g) => failure == None && Tables() == g
              case Err(e) => failure == Some(e)
    {
      var found := FindCurrentEdge(Graph(nodes, tags, edges, tasks, anchors, log), op.id, op.expected);
      if found.Err? {
        return Some(found.error);
      }
      var id := found.value;
      var row := edges[id];
      var relation := Keep(op.relation, row.relation);
      if |relation| > 120 {
        return Some(RelationTooLarge);
      }
      var epistemic := op.epistemic.Or(row.epistemic, EpistemicInvalid);
      if epistemic.Err? {
        return Some(epistemic.error);
      }
      var revision := row.revision + 1;
      edges := edges[id := row.(relation := relation, epistemic := epistemic.value,
                                evidenced := Evidenced(op.anchors, at, row.evidenced), revision := revision)];
      failure := InsertAnchors(EdgeEntity, id, revision, op.anchors);
      if failure.Some? {
        return;
      }
      LogEvent(id, revision, EdgeUpdated(relation, epistemic.value), at);
    }

    method RetireEdge(op: Operation, at: nat) returns (failure: Option<Error>)
      requires op.RetireEdge?
      modifies `edges, `log
      ensures match ApplyRetireEdge(old(Tables()), op, at)
              case Ok(g) => failure == None && Tables() == g
              case Err(e) => failure == Some(e)
    {
      var found := FindCurrentEdge(Graph(nodes, tags, edges, tasks, anchors, log), op.id, op.expected);
      if found.Err? {
        return Some(found.error);
      }
      var id := found.value;
      var revision := edges[id].revision + 1;
      edges := edges[id := edges[id].(status := Retired, revision := revision)];
      LogEvent(id, revision, EdgeRetired, at);
      return None;
    }

    method Perform(op: Operation, at: nat) returns (failure: Option<Error>)
      modifies `nodes, `tags, `edges, `tasks, `anchors, `log
      ensures match Apply(old(Tables()), op, at)
              case Ok(g) => failure == None && Tables() == g
              case Err(e) => failure == Some(e)
    {
      if op.CreateNode? {
        failure := CreateNode(op, at);
      } else if op.UpdateNode? {
        failure := UpdateNode(op, at);
      } else if op.ArchiveNode? {
        failure := ArchiveNode(op, at);
      } else if op.SupersedeNode? {
        failure := SupersedeNode(op, at);
      } else if op.SetTaskStatus? {
        failure := SetTaskStatus(op, at);
      } else if op.CreateEdge? {
        failure := CreateEdge(op, at);
      } else if op.UpdateEdge? {
        failure := UpdateEdge(op, at);
      } else if op.RetireEdge? {
        failure := RetireEdge(op, at);
      } else {
        failure := Some(OperationInvalid);
      }
    }

    method RowsFor(chunk: seq<NodeId>) returns (inserts: seq<IndexRow>)
      requires forall i, j :: 0 <= i < j < |chunk| ==> chunk[i] != chunk[j]
      ensures forall id :: RowsOf(inserts, id) == if id in chunk then Rebuilt(nodes, tags, id) else []
    {
      inserts := [];
      for i := 0 to |chunk|
        invariant forall id :: RowsOf(inserts, id) == if id in chunk[..i] then Rebuilt(nodes, tags, id) else []
      {
        var row := Rebuilt(nodes, tags, chunk[i]);
        forall x
          ensures RowsOf(inserts + row, x) == RowsOf(inserts, x) + if x == chunk[i] then row else []
        {
          RowsOfAppend(inserts, row, x);
        }
        assert chunk[..i + 1] == chunk[..i] + [chunk[i]];
        inserts := inserts + row;
      }
      assert chunk[..|chunk|] == chunk;
    }

    /** Reindexes the nodes of one chunk. */
    method RefreshChunk(chunk: seq<NodeId>, deleteExisting: bool)
      requires forall i, j :: 0 <= i < j < |chunk| ==> chunk[i] != chunk[j]
      requires !deleteExisting ==> forall id :: id in chunk ==> RowsOf(index, id) == []
      modifies `index
      ensures forall id :: RowsOf(index, id) == if id in chunk then Rebuilt(nodes, tags, id) else RowsOf(old(index), id)
    {
      if deleteExisting {
        index := DeleteRows(index, chunk);
      }
      var inserts := RowsFor(chunk);
      forall x
        ensures RowsOf(index + inserts, x) == if x in chunk then Rebuilt(nodes, tags, x) else RowsOf(old(index), x)
      {
        RowsOfAppend(index, inserts, x);
        RowsOfDeleted(old(index), chunk, x);
      }
      index := index + inserts;
    }

    /** Reindexes some nodes in chunks; `deleteExisting` may be false only for nodes without rows. */
    method RefreshIndex(ids: set<NodeId>, deleteExisting: bool)
      requires !deleteExisting ==> forall id :: id in ids ==> RowsOf(index, id) == []
      modifies `index
      ensures !searchable ==> index == old(index)
      ensures searchable ==>
                forall id :: RowsOf(index, id) == if id in ids then Rebuilt(nodes, tags, id) else RowsOf(old(index), id)
    {
      if !searchable {
        return;
      }
      var order := Enumerate(ids);
      var start := 0;
      while start < |order|
        invariant 0 <= start <= |order|
        invariant forall id :: RowsOf(index, id)
                               == if id in order[..start] then Rebuilt(nodes, tags, id) else RowsOf(old(index), id)
      {
        var end := Min(start + CHUNK_SIZE, |order|);
        var chunk := order[start..end];
        ChunkIsNew(order, start, end);
        RefreshChunk(chunk, deleteExisting);
        start := end;
      }
      assert order[..|order|] == order;
    }

    /** The operations one by one, with the sets of created and revised nodes; it stops at the first failure. */
    method PerformAll(ops: seq<Operation>, at: nat)
      returns (failure: Option<Error>, created: set<NodeId>, revised: set<NodeId>)
      modifies `nodes, `tags, `edges, `tasks, `anchors, `log
      ensures match ApplyAll(old(Tables()), ops, at)
              case Ok(g) => failure == None && Tables() == g
              case Err(e) => failure == Some(e)
      ensures failure.None? ==> Tracked(old(Tables()), Tables(), created, revised)
    {
      created, revised := {}, {};
      for i := 0 to |ops|
        invariant ApplyAll(old(Tables()), ops, at) == ApplyAll(Tables(), ops[i..], at)
        invariant Tracked(old(Tables()), Tables(), created, revised)
        invariant forall x :: x in revised ==> x in nodes
      {
        assert ops[i..][0] == ops[i] && ops[i..][1..] == ops[i + 1..];
        ghost var now := Tables();
        failure := Perform(ops[i], at);
        if failure.Some? {
          return;
        }
        TrackedStep(old(Tables()), now, created, revised, ops[i], at);
        match Touches(ops[i]) {
          case NewNode(id) => created := created + {id};
          case OldNode(id) => revised := revised + {id};
          case Untouched =>
        }
      }
      failure := None;
    }

    /** Applies a changeset as one transaction: all of it and its index rows, or nothing. */
    method ApplyOperations(ops: seq<Operation>, at: nat) returns (failure: Option<Error>)
      requires Indexed()
      modifies `nodes, `tags, `edges, `tasks, `anchors, `log, `index
      ensures match ApplyAll(old(Tables()), ops, at)
              case Ok(g) => failure == None && Tables() == g
              case Err(e) => failure == Some(e) && Tables() == old(Tables()) && index == old(index)
      ensures Tables() == Commit(old(Tables()), Changeset(ops, at))
      ensures Indexed()
    {
      var nodes0, tags0, edges0, tasks0, anchors0, log0 := nodes, tags, edges, tasks, anchors, log;
      var created, revised;
      failure, created, revised := PerformAll(ops, at);
      if failure.Some? {
        nodes, tags, edges, tasks, anchors, log := nodes0, tags0, edges0, tasks0, anchors0, log0;
        return;
      }
      ghost var before := index;
      RefreshIndex(created, false);
      RefreshIndex(revised - created, true);
      if searchable {
        RefreshedIsExact(old(Tables()), Tables(), created, revised, before, index);
      }
      return None;
    }
  }

  lemma ChunkIsNew(order: seq<NodeId>, start: nat, end: nat)
    requires start <= end <= |order| && forall i, j :: 0 <= i < j < |order| ==> order[i] != order[j]
    ensures forall id :: id in order[start..end] ==> id in order && id !in order[..start]
    ensures forall id :: id in order[..end] <==> id in order[..start] || id in order[start..end]
    ensures forall i, j :: 0 <= i < j < |order[start..end]| ==> order[start..end][i] != order[start..end][j]
  {
    assert order[..end] == order[..start] + order[start..end];
  }

  method Enumerate(ids: set<NodeId>) returns (order: seq<NodeId>)
    ensures forall id :: id in ids <==> id in order
    ensures forall i, j :: 0 <= i < j < |order| ==> order[i] != order[j]
  {
    order := [];
    var rest := ids;
    while rest != {}
      invariant rest <= ids
      invariant forall id :: id in ids <==> id in rest || id in order
      invariant forall id :: id in rest ==> id !in order
      invariant forall i, j :: 0 <= i < j < |order| ==> order[i] != order[j]
      decreases |rest|
    {
      var id :| id in rest;
      order := order + [id];
      rest := rest - {id};
    }
  }
}
