/** When an operation succeeds and what it then does, said of the operation and of the stores before and after it. */
module MemoryEffects {
  import opened MemoryCleaning
  import opened MemoryGraph
  import opened MemoryHistory
  import opened MemoryInvariants
  import opened Prelude

  // ---- anchors ---------------------------------------------------------------------------

  /** The revision is one its source has or had, the one being written included. */
  predicate Existing(g: Graph, entity: Entity, id: string, revision: nat, kind: AnchorKind, ref: string, n: int) {
    match kind
    case MemoryAnchor =>
      if entity == NodeEntity && ref == id then 1 <= n <= revision
      else ref in g.nodes && 1 <= n <= g.nodes[ref].revision
    case RelationAnchor =>
      if entity == EdgeEntity && ref == id then 1 <= n <= revision
      else ref in g.edges && 1 <= n <= g.edges[ref].revision
    case _ => false
  }

  /** An anchor that may be stored for revision `revision` of an entity. */
  predicate Accepted(g: Graph, entity: Entity, id: string, revision: nat, raw: AnchorInput) {
    && raw.kind.Some? && !raw.sourceRevision.Malformed?
    && (raw.kind.value.MemoryAnchor? ==> IsId("mem-", Strip(raw.sourceRef)))
    && (raw.kind.value.RelationAnchor? ==> IsId("rel-", Strip(raw.sourceRef)))
    && (raw.sourceRevision.Given? ==>
          Existing(g, entity, id, revision, raw.kind.value, Strip(raw.sourceRef), raw.sourceRevision.value))
  }

  predicate AllAccepted(g: Graph, entity: Entity, id: string, revision: nat, raws: seq<AnchorInput>) {
    forall i :: 0 <= i < |raws| ==> Accepted(g, entity, id, revision, raws[i])
  }

  /** The stored anchor says what was written. */
  predicate StoredAs(a: Anchor, entity: Entity, id: string, revision: nat, raw: AnchorInput) {
    && a.entity == entity && a.id == id && a.revision == revision
    && raw.kind == Some(a.kind) && a.material == raw.material
    && (a.sourceRef == if Strip(raw.sourceRef) == [] then None else Some(Strip(raw.sourceRef)))
    && (a.sourceRevision.Some? <==> raw.sourceRevision.Given?)
    && (a.sourceRevision.Some? ==> a.sourceRevision.value == raw.sourceRevision.value)
  }

  /** The anchors of an operation follow those stored before, in order. */
  predicate AnchorsAdded(g: Graph, r: Graph, entity: Entity, id: string, revision: nat, raws: seq<AnchorInput>) {
    && |r.anchors| == |g.anchors| + |raws| && g.anchors <= r.anchors
    && forall i :: 0 <= i < |raws| ==> StoredAs(r.anchors[|g.anchors| + i], entity, id, revision, raws[i])
  }

  /** In the middle of a write the row of the entity is already new, and the log still ends before it. */
  predicate Midway(g: Graph, g1: Graph, entity: Entity, id: string, revision: nat) {
    && g1.log == g.log
    && match entity
       case NodeEntity =>
         && id in g1.nodes && g1.nodes[id].revision == revision && g1.edges == g.edges
         && g1.nodes == g.nodes[id := g1.nodes[id]]
         && revision == (if id in g.nodes then g.nodes[id].revision else 0) + 1
       case EdgeEntity =>
         && id in g1.edges && g1.edges[id].revision == revision && g1.nodes == g.nodes
         && g1.edges == g.edges[id := g1.edges[id]]
         && revision == (if id in g.edges then g.edges[id].revision else 0) + 1
  }

  lemma RevisionFound(g: Graph, g1: Graph, entity: Entity, id: string, revision: nat, kind: AnchorKind, ref: string,
                      n: int)
    requires HistoryComplete(g) && Midway(g, g1, entity, id, revision)
    requires kind.MemoryAnchor? || kind.RelationAnchor?
    ensures SourceRevisionExists(g1, kind, ref, n) <==> Existing(g, entity, id, revision, kind, ref, n)
  {
    assert Told(g, ref);
    if n >= 1 {
      if kind.MemoryAnchor? {
        if ref in g.nodes {
          NodeEventRevisions(g.log, ref, n);
        } else {
          NoNodeEvents(g.log, ref);
        }
      } else {
        if ref in g.edges {
          EdgeEventRevisions(g.log, ref, n);
        } else {
          NoEdgeEvents(g.log, ref);
        }
      }
    }
  }

  lemma AnchorChecks(g: Graph, g1: Graph, entity: Entity, id: string, revision: nat, raw: AnchorInput)
    requires HistoryComplete(g) && Midway(g, g1, entity, id, revision)
    ensures var r := CheckAnchor(g1, entity, id, revision, raw);
            && (r.Ok? <==> Accepted(g, entity, id, revision, raw))
            && (r.Ok? ==> StoredAs(r.value, entity, id, revision, raw))
  {
    if raw.kind.Some? && raw.sourceRevision.Given? {
      var kind := raw.kind.value;
      if kind.MemoryAnchor? || kind.RelationAnchor? {
        RevisionFound(g, g1, entity, id, revision, kind, Strip(raw.sourceRef), raw.sourceRevision.value);
      }
    }
  }

  /** The anchors of an operation are stored, all of them and as written, if and only if each may be. */
  lemma {:induction false} AnchorsStore(g: Graph, g1: Graph, entity: Entity, id: string, revision: nat,
                                        raws: seq<AnchorInput>)
    requires HistoryComplete(g) && Midway(g, g1, entity, id, revision)
    ensures var r := StoreAnchors(g1, entity, id, revision, raws);
            && (r.Ok? <==> AllAccepted(g, entity, id, revision, raws))
            && (r.Ok? ==> r.value == g1.(anchors := r.value.anchors))
            && (r.Ok? ==> AnchorsAdded(g1, r.value, entity, id, revision, raws))
    decreases |raws|
  {
    if raws != [] {
      AnchorChecks(g, g1, entity, id, revision, raws[0]);
      assert Accepted(g, entity, id, revision, raws[0]) && AllAccepted(g, entity, id, revision, raws[1..])
             <==> AllAccepted(g, entity, id, revision, raws) by {
        AcceptedCons(g, entity, id, revision, raws);
      }
      var checked := CheckAnchor(g1, entity, id, revision, raws[0]);
      if checked.Ok? {
        var g2 := g1.(anchors := g1.anchors + [checked.value]);
        AnchorsStore(g, g2, entity, id, revision, raws[1..]);
        var r := StoreAnchors(g2, entity, id, revision, raws[1..]);
        if r.Ok? {
          AddedCons(g1, g2, r.value, entity, id, revision, raws);
        }
      }
    }
  }

  lemma AcceptedCons(g: Graph, entity: Entity, id: string, revision: nat, raws: seq<AnchorInput>)
    requires raws != []
    ensures AllAccepted(g, entity, id, revision, raws)
            <==> Accepted(g, entity, id, revision, raws[0]) && AllAccepted(g, entity, id, revision, raws[1..])
  {
    if Accepted(g, entity, id, revision, raws[0]) && AllAccepted(g, entity, id, revision, raws[1..]) {
      forall i | 0 <= i < |raws|
        ensures Accepted(g, entity, id, revision, raws[i])
      {
        assert i > 0 ==> raws[i] == raws[1..][i - 1];
      }
    }
    if AllAccepted(g, entity, id, revision, raws) {
      forall i | 0 <= i < |raws[1..]|
        ensures Accepted(g, entity, id, revision, raws[1..][i])
      {
        assert raws[1..][i] == raws[i + 1];
      }
    }
  }

  lemma AddedCons(g1: Graph, g2: Graph, r: Graph, entity: Entity, id: string, revision: nat, raws: seq<AnchorInput>)
    requires raws != [] && |g2.anchors| == |g1.anchors| + 1 && g1.anchors <= g2.anchors
    requires StoredAs(g2.anchors[|g1.anchors|], entity, id, revision, raws[0])
    requires AnchorsAdded(g2, r, entity, id, revision, raws[1..])
    ensures AnchorsAdded(g1, r, entity, id, revision, raws)
  {
    forall i | 0 <= i < |raws|
      ensures StoredAs(r.anchors[|g1.anchors| + i], entity, id, revision, raws[i])
    {
      if i > 0 {
        assert raws[i] == raws[1..][i - 1];
        assert StoredAs(r.anchors[|g2.anchors| + (i - 1)], entity, id, revision, raws[1..][i - 1]);
      }
    }
  }

  // ---- row writes ------------------------------------------------------------------------

  /** Beside the row and the tags of one node, and its task, nothing in the tables changed. */
  predicate OnlyNodeChanges(g: Graph, r: Graph, id: NodeId) {
    && id in r.nodes && r.nodes == g.nodes[id := r.nodes[id]]
    && id in r.tags && r.tags == g.tags[id := r.tags[id]]
    && r.edges == g.edges
    && (r.tasks == g.tasks || (id in r.tasks && r.tasks == g.tasks[id := r.tasks[id]]))
  }

  /** Beside one edge, nothing in the tables changed. */
  predicate OnlyEdgeChanges(g: Graph, r: Graph, id: EdgeId) {
    && id in r.edges && r.edges == g.edges[id := r.edges[id]]
    && r.nodes == g.nodes && r.tags == g.tags && r.tasks == g.tasks
  }

  /** The log grew by `count` events of this changeset. */
  predicate Logs(g: Graph, r: Graph, count: nat, at: nat) {
    && g.log <= r.log && |r.log| == |g.log| + count
    && forall i :: |g.log| <= i < |r.log| ==> r.log[i].at == at
  }

  /** What a successful node write leaves. */
  predicate NodeWrittenAs(g: Graph, r: Graph, id: NodeId, row: NodeRow, tags: TagSet, opens: bool, payload: Payload,
                          at: nat) {
    && OnlyNodeChanges(g, r, id) && r.nodes[id] == row && r.tags[id] == tags
    && r.tasks == (if opens then g.tasks[id := TaskRow(Active, 1, None)] else g.tasks)
    && Logs(g, r, if opens then 2 else 1, at) && r.log[|r.log| - 1].payload == payload
  }

  lemma WrittenAs(g: Graph, r: Graph, id: NodeId, row: NodeRow, tags: TagSet, opens: bool, payload: Payload, at: nat)
    requires r.nodes == g.nodes[id := row] && r.tags == g.tags[id := tags] && r.edges == g.edges
    requires r.tasks == (if opens then g.tasks[id := TaskRow(Active, 1, None)] else g.tasks)
    requires r.log == g.log + (if opens then [Event(id, 1, TaskOpened, at)] else [])
                      + [Event(id, row.revision, payload, at)]
    ensures NodeWrittenAs(g, r, id, row, tags, opens, payload, at)
  {
  }

  lemma NodeWrite(g: Graph, id: NodeId, row: NodeRow, tags: TagSet, raws: seq<AnchorInput>, opens: bool,
                  payload: Payload, at: nat)
    requires HistoryComplete(g) && row.revision == (if id in g.nodes then g.nodes[id].revision else 0) + 1
    ensures var r := WriteNode(g, id, row, tags, raws, opens, payload, at);
            && (r.Ok? <==> AllAccepted(g, NodeEntity, id, row.revision, raws))
            && (r.Ok? ==> NodeWrittenAs(g, r.value, id, row, tags, opens, payload, at)
                          && AnchorsAdded(g, r.value, NodeEntity, id, row.revision, raws))
  {
    var g1 := g.(nodes := g.nodes[id := row], tags := g.tags[id := tags]);
    AnchorsStore(g, g1, NodeEntity, id, row.revision, raws);
    var stored := StoreAnchors(g1, NodeEntity, id, row.revision, raws);
    if stored.Ok? {
      var r := WriteNode(g, id, row, tags, raws, opens, payload, at).value;
      assert g.log + [] == g.log;
      WrittenAs(g, r, id, row, tags, opens, payload, at);
      SameAnchors(g1, stored.value, g, r, NodeEntity, id, row.revision, raws);
    }
  }

  lemma SameAnchors(g1: Graph, r1: Graph, g: Graph, r: Graph, entity: Entity, id: string, revision: nat,
                    raws: seq<AnchorInput>)
    requires AnchorsAdded(g1, r1, entity, id, revision, raws) && g.anchors == g1.anchors && r.anchors == r1.anchors
    ensures AnchorsAdded(g, r, entity, id, revision, raws)
  {
  }

  /** What a successful edge write leaves. */
  predicate EdgeWrittenAs(g: Graph, r: Graph, id: EdgeId, row: EdgeRow, payload: Payload, at: nat) {
    && OnlyEdgeChanges(g, r, id) && r.edges[id] == row
    && Logs(g, r, 1, at) && r.log[|r.log| - 1].payload == payload
  }

  lemma EdgeWrite(g: Graph, id: EdgeId, row: EdgeRow, raws: seq<AnchorInput>, payload: Payload, at: nat)
    requires HistoryComplete(g) && row.revision == (if id in g.edges then g.edges[id].revision else 0) + 1
    ensures var r := WriteEdge(g, id, row, raws, payload, at);
            && (r.Ok? <==> AllAccepted(g, EdgeEntity, id, row.revision, raws))
            && (r.Ok? ==> EdgeWrittenAs(g, r.value, id, row, payload, at)
                          && AnchorsAdded(g, r.value, EdgeEntity, id, row.revision, raws))
  {
    var g1 := g.(edges := g.edges[id := row]);
    AnchorsStore(g, g1, EdgeEntity, id, row.revision, raws);
    var stored := StoreAnchors(g1, EdgeEntity, id, row.revision, raws);
    if stored.Ok? {
      var r := WriteEdge(g, id, row, raws, payload, at).value;
      assert EdgeWrittenAs(g, r, id, row, payload, at);
      SameAnchors(g1, stored.value, g, r, EdgeEntity, id, row.revision, raws);
    }
  }

  // ---- arguments -------------------------------------------------------------------------

  /** The stripped text is not blank and at most so long. */
  predicate Fits(text: string, maximum: nat) {
    0 < |Strip(text)| <= maximum
  }

  predicate WellFormedArg<T>(x: Arg<T>) {
    !x.Malformed?
  }

  /** The new value is the given one, or the default when none is given. */
  predicate Takes<T(==)>(x: Arg<T>, default: T, now: T) {
    now == if x.Given? then x.value else default
  }

  /** The text given, stripped, or what was there when it is blank. */
  predicate TakesText(text: string, was: string, now: string) {
    (Strip(text) != [] ==> now == Strip(text)) && (Strip(text) == [] ==> now == was)
  }

  /** The time of the last evidence moves exactly when anchors come. */
  predicate TakesEvidence(raws: seq<AnchorInput>, at: nat, was: Option<nat>, now: Option<nat>) {
    now == if raws == [] then was else Some(at)
  }

  /** Each list of cues: its own, the removed ones left out, the added ones included; the kept ones stay in front. */
  predicate TakesCues(current: seq<string>, added: seq<string>, removed: seq<string>, now: seq<string>) {
    && Folded(now) == Folded(current) - Folded(removed) + Folded(added)
    && Without(current, Folded(removed)) <= now
  }

  predicate TakesRecall(current: Recall, added: Recall, removed: Recall, now: Recall) {
    && TakesCues(current.aliases, added.aliases, removed.aliases, now.aliases)
    && TakesCues(current.concepts, added.concepts, removed.concepts, now.concepts)
    && TakesCues(current.cues, added.cues, removed.cues, now.cues)
  }

  /** Exactly the previous and added tags that are not removed; a spelling that was there stays, and a new one is one
      of those offered. */
  ghost predicate TakesTags(was: TagSet, added: seq<string>, removed: seq<string>, now: TagSet) {
    && (forall f :: f in now <==> (f in was || Offers(added, f)) && !Offers(removed, f))
    && (forall f :: f in now && f in was ==> now[f] == was[f])
    && (forall f :: f in now && f !in was ==> FirstOffer(added, f, now[f]))
  }

  lemma TagsTaken(was: TagSet, added: seq<string>, removed: seq<string>)
    ensures TakesTags(was, added, removed, RemoveTags(AddTags(was, CleanTags(added)), CleanTags(removed)))
  {
    var now := RemoveTags(AddTags(was, CleanTags(added)), CleanTags(removed));
    RevisedTagsAreExact(was, CleanTags(added), CleanTags(removed));
    forall f
      ensures f in Folded(CleanTags(added)) <==> Offers(added, f)
      ensures f in Folded(CleanTags(removed)) <==> Offers(removed, f)
    {
      CleanTagsIsExact(added, f);
      CleanTagsIsExact(removed, f);
    }
    forall f | f in now && f !in was
      ensures FirstOffer(added, f, now[f])
    {
      AddedSpelling(was, CleanTags(added), f);
      CleanTagsIsExact(added, f);
      CleanedIsFirst(added, {}, now[f]);
    }
  }

  lemma CuesTaken(current: seq<string>, added: seq<string>, removed: seq<string>)
    ensures TakesCues(current, added, removed, MergeCues(current, added, removed))
  {
    MergedCuesAreExact(current, added, removed);
  }

  // ---- the operations --------------------------------------------------------------------

  /** The operation names a current node at its present revision. */
  predicate TargetsNode(g: Graph, id: string, expected: Option<int>) {
    && Fits(id, 120) && Strip(id) in g.nodes
    && expected == Some(g.nodes[Strip(id)].revision) && g.nodes[Strip(id)].status == Current
  }

  predicate TargetsEdge(g: Graph, id: string, expected: Option<int>) {
    && Fits(id, 120) && Strip(id) in g.edges
    && expected == Some(g.edges[Strip(id)].revision) && g.edges[Strip(id)].status == Live
  }

  predicate MayClose(g: Graph, id: NodeId) {
    id in g.tasks ==> g.tasks[id].state == Resolved || g.tasks[id].state == Cancelled
  }

  predicate AdmitsCreateNode(g: Graph, op: Operation)
    requires op.CreateNode?
  {
    && IsId("mem-", op.id) && op.id !in g.nodes
    && Fits(op.scope, 160) && Fits(op.kind, 96) && Strip(op.content) != []
    && WellFormedArg(op.domain) && WellFormedArg(op.contextKey) && WellFormedArg(op.retention)
    && WellFormedArg(op.epistemic) && WellFormedArg(op.recall)
    && AllAccepted(g, NodeEntity, op.id, 1, op.anchors)
  }

  /** What a revision may do to a row: a kind stays short, and a task stays a task. */
  predicate MayRevise(row: NodeRow, hasTask: bool, op: Operation)
    requires op.UpdateNode?
  {
    && (Strip(op.kind) == [] ==> |row.kind| <= 96) && |Strip(op.kind)| <= 96
    && (hasTask ==> Strip(op.kind) == "task" || (Strip(op.kind) == [] && row.kind == "task"))
    && WellFormedArg(op.retention) && WellFormedArg(op.epistemic) && WellFormedArg(op.recall)
    && WellFormedArg(op.addRecall) && WellFormedArg(op.removeRecall)
  }

  predicate AdmitsUpdateNode(g: Graph, op: Operation)
    requires op.UpdateNode?
  {
    && TargetsNode(g, op.id, op.expected)
    && var id := Strip(op.id);
       MayRevise(g.nodes[id], id in g.tasks, op) && AllAccepted(g, NodeEntity, id, g.nodes[id].revision + 1, op.anchors)
  }

  predicate AdmitsArchiveNode(g: Graph, op: Operation)
    requires op.ArchiveNode?
  {
    TargetsNode(g, op.id, op.expected) && MayClose(g, Strip(op.id))
  }

  predicate AdmitsSupersedeNode(g: Graph, op: Operation)
    requires op.SupersedeNode?
  {
    && TargetsNode(g, op.id, op.expected) && MayClose(g, Strip(op.id))
    && Fits(op.replacement, 120) && Strip(op.replacement) in g.nodes && op.relationId !in g.edges
  }

  predicate AdmitsSetTaskStatus(g: Graph, op: Operation)
    requires op.SetTaskStatus?
  {
    var id := Strip(op.id);
    && Fits(op.id, 120) && id in g.nodes && g.nodes[id].status == Current && id in g.tasks
    && op.expected == Some(g.tasks[id].revision) && op.state.Some?
  }

  predicate AdmitsCreateEdge(g: Graph, op: Operation)
    requires op.CreateEdge?
  {
    && IsId("rel-", op.id) && op.id !in g.edges && WellFormedArg(op.epistemic)
    && Fits(op.source, 120) && Fits(op.relation, 120) && Fits(op.target, 120)
    && Strip(op.source) in g.nodes && Strip(op.target) in g.nodes
    && AllAccepted(g, EdgeEntity, op.id, 1, op.anchors)
  }

  /** What a revision may do to an edge. */
  predicate MayRelabel(row: EdgeRow, op: Operation)
    requires op.UpdateEdge?
  {
    && (Strip(op.relation) == [] ==> |row.relation| <= 120) && |Strip(op.relation)| <= 120
    && WellFormedArg(op.epistemic)
  }

  predicate AdmitsUpdateEdge(g: Graph, op: Operation)
    requires op.UpdateEdge?
  {
    && TargetsEdge(g, op.id, op.expected)
    && var id := Strip(op.id);
       MayRelabel(g.edges[id], op) && AllAccepted(g, EdgeEntity, id, g.edges[id].revision + 1, op.anchors)
  }

  /** When an operation is carried out. */
  predicate Admits(g: Graph, op: Operation) {
    match op
    case CreateNode(_, _, _, _, _, _, _, _, _, _, _) => AdmitsCreateNode(g, op)
    case UpdateNode(_, _, _, _, _, _, _, _, _, _, _, _) => AdmitsUpdateNode(g, op)
    case ArchiveNode(_, _) => AdmitsArchiveNode(g, op)
    case SupersedeNode(_, _, _, _) => AdmitsSupersedeNode(g, op)
    case SetTaskStatus(_, _, _) => AdmitsSetTaskStatus(g, op)
    case CreateEdge(_, _, _, _, _, _) => AdmitsCreateEdge(g, op)
    case UpdateEdge(_, _, _, _, _) => AdmitsUpdateEdge(g, op)
    case RetireEdge(id, expected) => TargetsEdge(g, id, expected)
    case Unrecognised => false
  }

  /** A new task row is opened for a node of kind `task` that has none. */
  predicate OpensTask(g: Graph, r: Graph, id: NodeId, kind: string) {
    r.tasks == if kind == "task" && id !in g.tasks then g.tasks[id := TaskRow(Active, 1, None)] else g.tasks
  }

  /** What a new row takes from the operation. */
  predicate RowCreatedBy(now: NodeRow, op: Operation, at: nat)
    requires op.CreateNode?
  {
    && now.scope == Strip(op.scope) && now.kind == Strip(op.kind) && now.content == Strip(op.content)
    && (now.kind == "task" ==> now.domain == Task)
    && (now.kind != "task" ==> Takes(op.domain, Knowledge, now.domain))
    && (op.contextKey.Given? ==> now.contextKey == Some(op.contextKey.value))
    && (op.contextKey.Absent? ==> now.contextKey == if now.kind == "task" then Some(op.id) else None)
    && Takes(op.retention, Persistent, now.retention) && Takes(op.epistemic, UNCLASSIFIED, now.epistemic)
    && Takes(op.recall, NO_RECALL, now.recall) && TakesEvidence(op.anchors, at, None, now.evidenced)
    && now.status == Current && now.revision == 1
  }

  ghost predicate NodeCreatedBy(g: Graph, r: Graph, op: Operation, at: nat)
    requires op.CreateNode?
  {
    && OnlyNodeChanges(g, r, op.id) && RowCreatedBy(r.nodes[op.id], op, at)
    && TakesTags(map[], op.tags, [], r.tags[op.id])
    && OpensTask(g, r, op.id, r.nodes[op.id].kind)
    && AnchorsAdded(g, r, NodeEntity, op.id, 1, op.anchors)
  }

  /** What the row of a revision takes from the operation and from the row before. */
  predicate RowRevisedBy(was: NodeRow, now: NodeRow, op: Operation, at: nat)
    requires op.UpdateNode?
  {
    && TakesText(op.content, was.content, now.content) && TakesText(op.kind, was.kind, now.kind)
    && Takes(op.retention, was.retention, now.retention) && Takes(op.epistemic, was.epistemic, now.epistemic)
    && TakesRecall(if op.recall.Given? then op.recall.value else was.recall,
                   if op.addRecall.Given? then op.addRecall.value else NO_RECALL,
                   if op.removeRecall.Given? then op.removeRecall.value else NO_RECALL, now.recall)
    && TakesEvidence(op.anchors, at, was.evidenced, now.evidenced)
    && now.scope == was.scope && now.domain == was.domain && now.contextKey == was.contextKey
    && now.status == was.status && now.revision == was.revision + 1
  }

  ghost predicate NodeUpdatedBy(g: Graph, r: Graph, op: Operation, at: nat)
    requires op.UpdateNode?
  {
    var id := Strip(op.id);
    && id in g.nodes && OnlyNodeChanges(g, r, id)
    && RowRevisedBy(g.nodes[id], r.nodes[id], op, at)
    && TakesTags(TagsOf(g, id), op.addTags, op.removeTags, r.tags[id])
    && OpensTask(g, r, id, r.nodes[id].kind)
    && AnchorsAdded(g, r, NodeEntity, id, r.nodes[id].revision, op.anchors)
  }

  /** The node is closed, at its next revision, and keeps its tags; no anchor comes. */
  predicate NodeClosedBy(g: Graph, r: Graph, id: NodeId, status: NodeStatus) {
    && id in g.nodes && id in r.nodes && r.nodes == g.nodes[id := r.nodes[id]]
    && r.nodes[id] == g.nodes[id].(status := status, revision := g.nodes[id].revision + 1)
    && id in r.tags && r.tags == g.tags[id := TagsOf(g, id)] && r.tasks == g.tasks && r.anchors == g.anchors
  }

  ghost predicate EdgeCreatedBy(g: Graph, r: Graph, op: Operation, at: nat)
    requires op.CreateEdge?
  {
    && OnlyEdgeChanges(g, r, op.id)
    && var now := r.edges[op.id];
       && now.source == Strip(op.source) && now.relation == Strip(op.relation) && now.target == Strip(op.target)
       && Takes(op.epistemic, RELATION, now.epistemic) && TakesEvidence(op.anchors, at, None, now.evidenced)
       && now.status == Live && now.revision == 1 && AnchorsAdded(g, r, EdgeEntity, op.id, 1, op.anchors)
  }

  /** What the row of a revised edge takes from the operation and from the row before. */
  predicate EdgeRevisedBy(was: EdgeRow, now: EdgeRow, op: Operation, at: nat)
    requires op.UpdateEdge?
  {
    && now.source == was.source && now.target == was.target && TakesText(op.relation, was.relation, now.relation)
    && Takes(op.epistemic, was.epistemic, now.epistemic)
    && TakesEvidence(op.anchors, at, was.evidenced, now.evidenced)
    && now.status == was.status && now.revision == was.revision + 1
  }

  predicate EdgeUpdatedBy(g: Graph, r: Graph, op: Operation, at: nat)
    requires op.UpdateEdge?
  {
    var id := Strip(op.id);
    && id in g.edges && OnlyEdgeChanges(g, r, id) && EdgeRevisedBy(g.edges[id], r.edges[id], op, at)
    && AnchorsAdded(g, r, EdgeEntity, id, r.edges[id].revision, op.anchors)
  }

  predicate EdgeRetiredBy(g: Graph, r: Graph, id: EdgeId) {
    && id in g.edges && OnlyEdgeChanges(g, r, id) && r.anchors == g.anchors
    && r.edges[id] == g.edges[id].(status := Retired, revision := g.edges[id].revision + 1)
  }

  /** The closed node is linked to its replacement by a new edge without anchors. */
  predicate NodeSupersededBy(g: Graph, r: Graph, id: NodeId, replacement: NodeId, relationId: EdgeId) {
    && NodeClosedBy(g, r, id, Superseded)
    && r.edges == g.edges[relationId := EdgeRow(id, "superseded_by", replacement, LIFECYCLE, None, Live, 1)]
  }

  /** The task is in the wanted state; when that is a new one, at its next revision, with the time it closed if it
      did. */
  predicate TaskMovedBy(g: Graph, r: Graph, id: NodeId, state: TaskState, at: nat) {
    && id in g.tasks && r.nodes == g.nodes && r.tags == g.tags && r.edges == g.edges && r.anchors == g.anchors
    && if state == g.tasks[id].state then r == g
       else r.tasks == g.tasks[id := TaskRow(state, g.tasks[id].revision + 1,
                                             if state == Resolved || state == Cancelled then Some(at) else None)]
            && Logs(g, r, 1, at) && r.log[|g.log|].payload == TaskMoved(g.tasks[id].state, state)
  }

  /** What a successful operation does. */
  ghost predicate Does(g: Graph, op: Operation, at: nat, r: Graph) {
    match op
    case CreateNode(_, _, _, _, _, _, _, _, _, _, _) => NodeCreatedBy(g, r, op, at)
    case UpdateNode(_, _, _, _, _, _, _, _, _, _, _, _) => NodeUpdatedBy(g, r, op, at)
    case ArchiveNode(id, _) => NodeClosedBy(g, r, Strip(id), Archived) && r.edges == g.edges
    case SupersedeNode(id, _, replacement, relationId) =>
      NodeSupersededBy(g, r, Strip(id), Strip(replacement), relationId)
    case SetTaskStatus(id, _, state) => state.Some? && TaskMovedBy(g, r, Strip(id), state.value, at)
    case CreateEdge(_, _, _, _, _, _) => EdgeCreatedBy(g, r, op, at)
    case UpdateEdge(_, _, _, _, _) => EdgeUpdatedBy(g, r, op, at)
    case RetireEdge(id, _) => EdgeRetiredBy(g, r, Strip(id))
    case Unrecognised => false
  }

  lemma NewRowIsExact(g: Graph, op: Operation, at: nat)
    requires op.CreateNode?
    ensures NewNodeRow(op, at).Ok? <==>
            && IsId("mem-", op.id) && Fits(op.scope, 160) && Fits(op.kind, 96) && Strip(op.content) != []
            && WellFormedArg(op.domain) && WellFormedArg(op.contextKey) && WellFormedArg(op.retention)
            && WellFormedArg(op.epistemic) && WellFormedArg(op.recall)
  {
  }

  lemma NewRowTakes(op: Operation, at: nat)
    requires op.CreateNode? && NewNodeRow(op, at).Ok?
    ensures RowCreatedBy(NewNodeRow(op, at).value, op, at)
  {
  }

  lemma CreateNodeWrites(g: Graph, op: Operation, at: nat, row: NodeRow)
    requires Valid(g) && op.CreateNode? && NewNodeRow(op, at) == Ok(row) && row.revision == 1 && op.id !in g.nodes
    ensures Apply(g, op, at).Ok? <==> AllAccepted(g, NodeEntity, op.id, 1, op.anchors)
    ensures Apply(g, op, at).Ok? ==>
              var r := Apply(g, op, at).value;
              && OnlyNodeChanges(g, r, op.id) && r.nodes[op.id] == row && TakesTags(map[], op.tags, [], r.tags[op.id])
              && OpensTask(g, r, op.id, row.kind) && AnchorsAdded(g, r, NodeEntity, op.id, 1, op.anchors)
  {
    var tags := CleanTags(op.tags);
    NodeWrite(g, op.id, row, AddTags(map[], tags), op.anchors, row.kind == "task", CreationOf(row, tags), at);
    TagsTaken(map[], op.tags, []);
    NothingRemoved(AddTags(map[], tags));
    assert op.id !in g.tasks;
  }

  lemma CreatedBy(g: Graph, r: Graph, op: Operation, at: nat, row: NodeRow)
    requires op.CreateNode? && OnlyNodeChanges(g, r, op.id) && r.nodes[op.id] == row && RowCreatedBy(row, op, at)
    requires TakesTags(map[], op.tags, [], r.tags[op.id]) && OpensTask(g, r, op.id, row.kind)
    requires AnchorsAdded(g, r, NodeEntity, op.id, 1, op.anchors)
    ensures NodeCreatedBy(g, r, op, at)
  {
  }

  lemma CreateCarriedOut(g: Graph, op: Operation, at: nat, row: NodeRow)
    requires Valid(g) && op.CreateNode? && NewNodeRow(op, at) == Ok(row) && RowCreatedBy(row, op, at)
    requires op.id !in g.nodes
    ensures Apply(g, op, at).Ok? <==> AllAccepted(g, NodeEntity, op.id, 1, op.anchors)
    ensures Apply(g, op, at).Ok? ==> NodeCreatedBy(g, Apply(g, op, at).value, op, at)
  {
    CreateNodeWrites(g, op, at, row);
    if Apply(g, op, at).Ok? {
      CreatedBy(g, Apply(g, op, at).value, op, at, row);
    }
  }

  lemma CreateNodeIsExact(g: Graph, op: Operation, at: nat)
    requires Valid(g) && op.CreateNode?
    ensures Apply(g, op, at).Ok? <==> AdmitsCreateNode(g, op)
    ensures Apply(g, op, at).Ok? ==> NodeCreatedBy(g, Apply(g, op, at).value, op, at)
  {
    NewRowIsExact(g, op, at);
    if NewNodeRow(op, at).Ok? && op.id !in g.nodes {
      NewRowTakes(op, at);
      CreateCarriedOut(g, op, at, NewNodeRow(op, at).value);
    }
  }

  lemma NothingRemoved(tags: TagSet)
    ensures RemoveTags(tags, CleanTags([])) == tags
  {
    assert Folded([]) == {};
  }

  lemma RevisedRowIsExact(row: NodeRow, hasTask: bool, op: Operation, at: nat)
    requires op.UpdateNode?
    ensures RevisedNodeRow(row, hasTask, op, at).Ok? <==> MayRevise(row, hasTask, op)
  {
  }

  lemma RecallTaken(current: Recall, replacement: Arg<Recall>, added: Arg<Recall>, removed: Arg<Recall>)
    requires WellFormedArg(replacement) && WellFormedArg(added) && WellFormedArg(removed)
    ensures MergeRecall(current, replacement, added, removed).Ok?
    ensures TakesRecall(if replacement.Given? then replacement.value else current,
                        if added.Given? then added.value else NO_RECALL,
                        if removed.Given? then removed.value else NO_RECALL,
                        MergeRecall(current, replacement, added, removed).value)
  {
    var base := if replacement.Given? then replacement.value else current;
    var add := if added.Given? then added.value else NO_RECALL;
    var remove := if removed.Given? then removed.value else NO_RECALL;
    CuesTaken(base.aliases, add.aliases, remove.aliases);
    CuesTaken(base.concepts, add.concepts, remove.concepts);
    CuesTaken(base.cues, add.cues, remove.cues);
  }

  lemma RevisedRowTakes(row: NodeRow, hasTask: bool, op: Operation, at: nat)
    requires op.UpdateNode? && RevisedNodeRow(row, hasTask, op, at).Ok?
    ensures RowRevisedBy(row, RevisedNodeRow(row, hasTask, op, at).value, op, at)
  {
    RevisedRowIsExact(row, hasTask, op, at);
    RecallTaken(row.recall, op.recall, op.addRecall, op.removeRecall);
  }

  lemma UpdateWrites(g: Graph, op: Operation, at: nat, id: NodeId, row: NodeRow)
    requires Valid(g) && op.UpdateNode? && FindCurrentNode(g, op.id, op.expected) == Ok(id)
    requires RevisedNodeRow(g.nodes[id], id in g.tasks, op, at) == Ok(row)
    ensures var r := Apply(g, op, at);
            && (r.Ok? <==> AllAccepted(g, NodeEntity, id, row.revision, op.anchors))
            && (r.Ok? ==>
                  && OnlyNodeChanges(g, r.value, id) && r.value.nodes[id] == row
                  && TakesTags(TagsOf(g, id), op.addTags, op.removeTags, r.value.tags[id])
                  && OpensTask(g, r.value, id, row.kind)
                  && AnchorsAdded(g, r.value, NodeEntity, id, row.revision, op.anchors))
  {
    var added, removed := CleanTags(op.addTags), CleanTags(op.removeTags);
    TagsTaken(TagsOf(g, id), op.addTags, op.removeTags);
    NodeWrite(g, id, row, RemoveTags(AddTags(TagsOf(g, id), added), removed), op.anchors,
              row.kind == "task" && id !in g.tasks, RevisionOf(row, added, removed), at);
  }

  lemma NodeFound(g: Graph, id: string, expected: Option<int>)
    ensures FindCurrentNode(g, id, expected).Ok? <==> TargetsNode(g, id, expected)
    ensures FindCurrentNode(g, id, expected).Ok? ==> FindCurrentNode(g, id, expected).value == Strip(id)
  {
  }

  /** The update finds its node and revises its row. */
  lemma UpdateRevises(g: Graph, op: Operation, at: nat) returns (row: NodeRow)
    requires op.UpdateNode? && TargetsNode(g, op.id, op.expected)
    requires MayRevise(g.nodes[Strip(op.id)], Strip(op.id) in g.tasks, op)
    ensures FindCurrentNode(g, op.id, op.expected) == Ok(Strip(op.id))
    ensures RevisedNodeRow(g.nodes[Strip(op.id)], Strip(op.id) in g.tasks, op, at) == Ok(row)
    ensures RowRevisedBy(g.nodes[Strip(op.id)], row, op, at) && row.revision == g.nodes[Strip(op.id)].revision + 1
  {
    var id := Strip(op.id);
    NodeFound(g, op.id, op.expected);
    RevisedRowIsExact(g.nodes[id], id in g.tasks, op, at);
    RevisedRowTakes(g.nodes[id], id in g.tasks, op, at);
    row := RevisedNodeRow(g.nodes[id], id in g.tasks, op, at).value;
  }

  lemma UpdateCarriedOut(g: Graph, op: Operation, at: nat, row: NodeRow)
    requires Valid(g) && op.UpdateNode? && FindCurrentNode(g, op.id, op.expected) == Ok(Strip(op.id))
    requires RevisedNodeRow(g.nodes[Strip(op.id)], Strip(op.id) in g.tasks, op, at) == Ok(row)
    requires RowRevisedBy(g.nodes[Strip(op.id)], row, op, at)
    ensures Apply(g, op, at).Ok? <==> AllAccepted(g, NodeEntity, Strip(op.id), row.revision, op.anchors)
    ensures Apply(g, op, at).Ok? ==> NodeUpdatedBy(g, Apply(g, op, at).value, op, at)
  {
    UpdateWrites(g, op, at, Strip(op.id), row);
    if Apply(g, op, at).Ok? {
      UpdatedBy(g, Apply(g, op, at).value, op, at, row);
    }
  }

  lemma UpdateNodeDoes(g: Graph, op: Operation, at: nat)
    requires Valid(g) && op.UpdateNode? && AdmitsUpdateNode(g, op)
    ensures Apply(g, op, at).Ok? && NodeUpdatedBy(g, Apply(g, op, at).value, op, at)
  {
    var row := UpdateRevises(g, op, at);
    UpdateCarriedOut(g, op, at, row);
  }

  lemma UpdateNodeRefused(g: Graph, op: Operation, at: nat)
    requires Valid(g) && op.UpdateNode? && !AdmitsUpdateNode(g, op)
    ensures Apply(g, op, at).Err?
  {
    if TargetsNode(g, op.id, op.expected) && MayRevise(g.nodes[Strip(op.id)], Strip(op.id) in g.tasks, op) {
      var row := UpdateRevises(g, op, at);
      UpdateCarriedOut(g, op, at, row);
    } else {
      UpdateCannotRevise(g, op, at);
    }
  }

  lemma UpdateCannotRevise(g: Graph, op: Operation, at: nat)
    requires op.UpdateNode?
    requires TargetsNode(g, op.id, op.expected) ==>
               !MayRevise(g.nodes[Strip(op.id)], Strip(op.id) in g.tasks, op)
    ensures Apply(g, op, at).Err?
  {
    NodeFound(g, op.id, op.expected);
    if TargetsNode(g, op.id, op.expected) {
      RevisedRowIsExact(g.nodes[Strip(op.id)], Strip(op.id) in g.tasks, op, at);
    }
  }

  lemma UpdateNodeIsExact(g: Graph, op: Operation, at: nat)
    requires Valid(g) && op.UpdateNode?
    ensures Apply(g, op, at).Ok? <==> AdmitsUpdateNode(g, op)
    ensures Apply(g, op, at).Ok? ==> NodeUpdatedBy(g, Apply(g, op, at).value, op, at)
  {
    if AdmitsUpdateNode(g, op) {
      UpdateNodeDoes(g, op, at);
    } else {
      UpdateNodeRefused(g, op, at);
    }
  }

  lemma UpdatedBy(g: Graph, r: Graph, op: Operation, at: nat, row: NodeRow)
    requires op.UpdateNode? && Strip(op.id) in g.nodes && OnlyNodeChanges(g, r, Strip(op.id))
    requires r.nodes[Strip(op.id)] == row && RowRevisedBy(g.nodes[Strip(op.id)], row, op, at)
    requires TakesTags(TagsOf(g, Strip(op.id)), op.addTags, op.removeTags, r.tags[Strip(op.id)])
    requires OpensTask(g, r, Strip(op.id), row.kind)
    requires AnchorsAdded(g, r, NodeEntity, Strip(op.id), row.revision, op.anchors)
    ensures NodeUpdatedBy(g, r, op, at)
  {
  }

  lemma CloseIsExact(g: Graph, id: NodeId, status: NodeStatus, replacement: Option<NodeId>, at: nat)
    requires HistoryComplete(g) && id in g.nodes
    ensures var r := Close(g, id, status, replacement, at);
            r.Ok? && NodeClosedBy(g, r.value, id, status) && r.value.edges == g.edges
  {
    var row := g.nodes[id].(status := status, revision := g.nodes[id].revision + 1);
    NodeWrite(g, id, row, TagsOf(g, id), [], false, NodeClosed(status, replacement), at);
  }

  lemma ArchiveNodeIsExact(g: Graph, op: Operation, at: nat)
    requires Valid(g) && op.ArchiveNode?
    ensures Apply(g, op, at).Ok? <==> AdmitsArchiveNode(g, op)
    ensures Apply(g, op, at).Ok? ==> NodeClosedBy(g, Apply(g, op, at).value, Strip(op.id), Archived)
    ensures Apply(g, op, at).Ok? ==> Apply(g, op, at).value.edges == g.edges
  {
    var found := FindClosable(g, op.id, op.expected);
    if found.Ok? {
      CloseIsExact(g, found.value, Archived, None, at);
    }
  }

  lemma SupersedeWrites(g: Graph, id: NodeId, replacement: NodeId, relationId: EdgeId, at: nat)
    requires Valid(g) && id in g.nodes && replacement in g.nodes && relationId !in g.edges
    ensures var row := EdgeRow(id, "superseded_by", replacement, LIFECYCLE, None, Live, 1);
            var linked := WriteEdge(g, relationId, row, [], EdgeCreated(id, "superseded_by", replacement, None), at);
            && linked.Ok? && id in linked.value.nodes
            && var r := Close(linked.value, id, Superseded, Some(replacement), at);
               r.Ok? && NodeSupersededBy(g, r.value, id, replacement, relationId)
  {
    var row := EdgeRow(id, "superseded_by", replacement, LIFECYCLE, None, Live, 1);
    var created := EdgeCreated(id, "superseded_by", replacement, None);
    EdgeWrite(g, relationId, row, [], created, at);
    var g1 := WriteEdge(g, relationId, row, [], created, at).value;
    EdgeWriteKeepsValid(g, relationId, row, [], created, at);
    CloseIsExact(g1, id, Superseded, Some(replacement), at);
    assert g1.anchors == g.anchors;
  }

  lemma ClosableFound(g: Graph, id: string, expected: Option<int>)
    ensures FindClosable(g, id, expected).Ok? <==> TargetsNode(g, id, expected) && MayClose(g, Strip(id))
    ensures FindClosable(g, id, expected).Ok? ==> FindClosable(g, id, expected).value == Strip(id)
  {
    NodeFound(g, id, expected);
  }

  lemma SupersedeNodeIsExact(g: Graph, op: Operation, at: nat)
    requires Valid(g) && op.SupersedeNode?
    ensures Apply(g, op, at).Ok? <==> AdmitsSupersedeNode(g, op)
    ensures Apply(g, op, at).Ok? ==>
              NodeSupersededBy(g, Apply(g, op, at).value, Strip(op.id), Strip(op.replacement), op.relationId)
  {
    ClosableFound(g, op.id, op.expected);
    if AdmitsSupersedeNode(g, op) {
      SupersedeWrites(g, Strip(op.id), Strip(op.replacement), op.relationId, at);
    }
  }

  lemma SetTaskStatusIsExact(g: Graph, op: Operation, at: nat)
    requires Valid(g) && op.SetTaskStatus?
    ensures Apply(g, op, at).Ok? <==> AdmitsSetTaskStatus(g, op)
    ensures Apply(g, op, at).Ok? ==>
              op.state.Some? && TaskMovedBy(g, Apply(g, op, at).value, Strip(op.id), op.state.value, at)
  {
    var id := Strip(op.id);
    RevisionsStartAtOne(g, id);
    if Apply(g, op, at).Ok? && op.state.value != g.tasks[id].state {
      var r := Apply(g, op, at).value;
      assert r.log == g.log + [r.log[|g.log|]];
    }
  }

  lemma CreateEdgeWrites(g: Graph, op: Operation, at: nat)
    requires Valid(g) && op.CreateEdge? && IsId("rel-", op.id) && op.id !in g.edges && WellFormedArg(op.epistemic)
    requires Fits(op.source, 120) && Fits(op.relation, 120) && Fits(op.target, 120)
    requires Strip(op.source) in g.nodes && Strip(op.target) in g.nodes
    ensures Apply(g, op, at).Ok? <==> AllAccepted(g, EdgeEntity, op.id, 1, op.anchors)
    ensures Apply(g, op, at).Ok? ==> EdgeCreatedBy(g, Apply(g, op, at).value, op, at)
  {
    var source, relation, target := Strip(op.source), Strip(op.relation), Strip(op.target);
    var epistemic := op.epistemic.Or(RELATION, EpistemicInvalid).value;
    EdgeWrite(g, op.id, EdgeRow(source, relation, target, epistemic, Evidenced(op.anchors, at, None), Live, 1),
              op.anchors, EdgeCreated(source, relation, target, Some(epistemic)), at);
  }

  lemma CreateEdgeIsExact(g: Graph, op: Operation, at: nat)
    requires Valid(g) && op.CreateEdge?
    ensures Apply(g, op, at).Ok? <==> AdmitsCreateEdge(g, op)
    ensures Apply(g, op, at).Ok? ==> EdgeCreatedBy(g, Apply(g, op, at).value, op, at)
  {
    if && IsId("rel-", op.id) && op.id !in g.edges && WellFormedArg(op.epistemic)
       && Fits(op.source, 120) && Fits(op.relation, 120) && Fits(op.target, 120)
       && Strip(op.source) in g.nodes && Strip(op.target) in g.nodes {
      CreateEdgeWrites(g, op, at);
    }
  }

  lemma EdgeFound(g: Graph, id: string, expected: Option<int>)
    ensures FindCurrentEdge(g, id, expected).Ok? <==> TargetsEdge(g, id, expected)
    ensures FindCurrentEdge(g, id, expected).Ok? ==> FindCurrentEdge(g, id, expected).value == Strip(id)
  {
  }

  function RelabelledRow(row: EdgeRow, op: Operation, at: nat): EdgeRow
    requires op.UpdateEdge? && WellFormedArg(op.epistemic)
  {
    row.(relation := Keep(op.relation, row.relation),
         epistemic := op.epistemic.Or(row.epistemic, EpistemicInvalid).value,
         evidenced := Evidenced(op.anchors, at, row.evidenced), revision := row.revision + 1)
  }

  lemma RelabelledRowTakes(row: EdgeRow, op: Operation, at: nat)
    requires op.UpdateEdge? && WellFormedArg(op.epistemic)
    ensures EdgeRevisedBy(row, RelabelledRow(row, op, at), op, at)
  {
  }

  lemma UpdateEdgeApplies(g: Graph, op: Operation, at: nat)
    requires op.UpdateEdge? && TargetsEdge(g, op.id, op.expected) && MayRelabel(g.edges[Strip(op.id)], op)
    ensures var row := RelabelledRow(g.edges[Strip(op.id)], op, at);
            Apply(g, op, at)
            == WriteEdge(g, Strip(op.id), row, op.anchors, EdgeUpdated(row.relation, row.epistemic), at)
  {
    EdgeFound(g, op.id, op.expected);
  }

  lemma UpdateEdgeWrites(g: Graph, op: Operation, at: nat)
    requires Valid(g) && op.UpdateEdge? && TargetsEdge(g, op.id, op.expected) && MayRelabel(g.edges[Strip(op.id)], op)
    ensures Apply(g, op, at).Ok?
            <==> AllAccepted(g, EdgeEntity, Strip(op.id), g.edges[Strip(op.id)].revision + 1, op.anchors)
    ensures Apply(g, op, at).Ok? ==> EdgeUpdatedBy(g, Apply(g, op, at).value, op, at)
  {
    UpdateEdgeApplies(g, op, at);
    var row := RelabelledRow(g.edges[Strip(op.id)], op, at);
    RelabelledRowTakes(g.edges[Strip(op.id)], op, at);
    EdgeWrite(g, Strip(op.id), row, op.anchors, EdgeUpdated(row.relation, row.epistemic), at);
  }

  lemma UpdateEdgeRefused(g: Graph, op: Operation, at: nat)
    requires op.UpdateEdge? && (TargetsEdge(g, op.id, op.expected) ==> !MayRelabel(g.edges[Strip(op.id)], op))
    ensures Apply(g, op, at).Err?
  {
    EdgeFound(g, op.id, op.expected);
  }

  lemma UpdateEdgeIsExact(g: Graph, op: Operation, at: nat)
    requires Valid(g) && op.UpdateEdge?
    ensures Apply(g, op, at).Ok? <==> AdmitsUpdateEdge(g, op)
    ensures Apply(g, op, at).Ok? ==> EdgeUpdatedBy(g, Apply(g, op, at).value, op, at)
  {
    if TargetsEdge(g, op.id, op.expected) && MayRelabel(g.edges[Strip(op.id)], op) {
      UpdateEdgeWrites(g, op, at);
    } else {
      UpdateEdgeRefused(g, op, at);
    }
  }

  lemma RetireEdgeIsExact(g: Graph, op: Operation, at: nat)
    requires Valid(g) && op.RetireEdge?
    ensures Apply(g, op, at).Ok? <==> TargetsEdge(g, op.id, op.expected)
    ensures Apply(g, op, at).Ok? ==> EdgeRetiredBy(g, Apply(g, op, at).value, Strip(op.id))
  {
    EdgeFound(g, op.id, op.expected);
    if TargetsEdge(g, op.id, op.expected) {
      var row := g.edges[Strip(op.id)];
      EdgeWrite(g, Strip(op.id), row.(status := Retired, revision := row.revision + 1), [], EdgeRetired, at);
    }
  }

  /** In a valid store every operation succeeds exactly when the store admits it, and a successful one does to the
      tables what its arguments say: nothing more and nothing less. */
  lemma OperationIsExact(g: Graph, op: Operation, at: nat)
    requires Valid(g)
    ensures Apply(g, op, at).Ok? <==> Admits(g, op)
    ensures Apply(g, op, at).Ok? ==> Does(g, op, at, Apply(g, op, at).value)
  {
    match op
    case CreateNode(_, _, _, _, _, _, _, _, _, _, _) => CreateNodeIsExact(g, op, at);
    case UpdateNode(_, _, _, _, _, _, _, _, _, _, _, _) => UpdateNodeIsExact(g, op, at);
    case ArchiveNode(_, _) => ArchiveNodeIsExact(g, op, at);
    case SupersedeNode(_, _, _, _) => SupersedeNodeIsExact(g, op, at);
    case SetTaskStatus(_, _, _) => SetTaskStatusIsExact(g, op, at);
    case CreateEdge(_, _, _, _, _, _) => CreateEdgeIsExact(g, op, at);
    case UpdateEdge(_, _, _, _, _) => UpdateEdgeIsExact(g, op, at);
    case RetireEdge(_, _) => RetireEdgeIsExact(g, op, at);
    case Unrecognised =>
  }

  // ---- changesets ------------------------------------------------------------------------

  /** Stores from one to the next, each operation admitted and doing what it says. */
  ghost predicate CarriesOut(states: seq<Graph>, ops: seq<Operation>, at: nat) {
    && |states| == |ops| + 1
    && forall i :: 0 <= i < |ops| ==> Admits(states[i], ops[i]) && Does(states[i], ops[i], at, states[i + 1])
  }

  /** Steps taken one after the other, up to the first that fails. */
  function InTurn<S, O, E>(step: (S, O) -> Result<S, E>, s: S, ops: seq<O>): Result<S, E> {
    if ops == [] then Ok(s)
    else
      match step(s, ops[0])
      case Ok(next) => InTurn(step, next, ops[1..])
      case Err(error) => Err(error)
  }

  ghost predicate Linked<S, O>(good: (S, O, S) -> bool, states: seq<S>, ops: seq<O>) {
    |states| == |ops| + 1 && forall i :: 0 <= i < |ops| ==> good(states[i], ops[i], states[i + 1])
  }

  /** When every step from a valid state succeeds exactly if it is able to, and then does a good thing, the steps taken
      form a chain of good things that ends at the first one unable to go on. */
  lemma {:induction false} StatesInTurn<S(!new), O(!new), E>(
      step: (S, O) -> Result<S, E>, valid: S -> bool, able: (S, O) -> bool, good: (S, O, S) -> bool, s: S,
      ops: seq<O>) returns (states: seq<S>, done: nat)
    requires valid(s)
    requires forall x, o :: valid(x) ==> (step(x, o).Ok? <==> able(x, o))
    requires forall x, o :: valid(x) && step(x, o).Ok? ==> valid(step(x, o).value) && good(x, o, step(x, o).value)
    ensures done <= |ops| && Linked(good, states, ops[..done]) && states[0] == s
    ensures InTurn(step, s, ops).Ok? ==> done == |ops| && InTurn(step, s, ops).value == states[done]
    ensures InTurn(step, s, ops).Err? ==> done < |ops| && !able(states[done], ops[done])
    decreases |ops|
  {
    states, done := [s], 0;
    if ops != [] && step(s, ops[0]).Ok? {
      var rest, more := StatesInTurn(step, valid, able, good, step(s, ops[0]).value, ops[1..]);
      states, done := [s] + rest, more + 1;
      forall i | 0 <= i < done
        ensures good(states[i], ops[..done][i], states[i + 1])
      {
        assert i > 0 ==> states[i] == rest[i - 1] && ops[..done][i] == ops[1..][..more][i - 1];
      }
    }
  }

  lemma {:induction false} ApplyAllInTurn(g: Graph, ops: seq<Operation>, at: nat)
    ensures ApplyAll(g, ops, at) == InTurn((x: Graph, op: Operation) => Apply(x, op, at), g, ops)
    decreases |ops|
  {
    if ops != [] && Apply(g, ops[0], at).Ok? {
      ApplyAllInTurn(Apply(g, ops[0], at).value, ops[1..], at);
    }
  }

  lemma AppliedInTurn(g: Graph, ops: seq<Operation>, at: nat) returns (states: seq<Graph>, done: nat)
    requires Valid(g)
    ensures done <= |ops| && CarriesOut(states, ops[..done], at) && states[0] == g
    ensures ApplyAll(g, ops, at).Ok? ==> done == |ops| && ApplyAll(g, ops, at).value == states[done]
    ensures ApplyAll(g, ops, at).Err? ==> done < |ops| && !Admits(states[done], ops[done])
  {
    forall x: Graph, op: Operation | Valid(x)
      ensures Apply(x, op, at).Ok? <==> Admits(x, op)
      ensures Apply(x, op, at).Ok? ==> Valid(Apply(x, op, at).value) && Does(x, op, at, Apply(x, op, at).value)
    {
      OperationIsExact(x, op, at);
      if Apply(x, op, at).Ok? {
        ApplyKeepsValid(x, op, at);
      }
    }
    ApplyAllInTurn(g, ops, at);
    var good := (x: Graph, op: Operation, r: Graph) => Admits(x, op) && Does(x, op, at, r);
    states, done := StatesInTurn((x: Graph, op: Operation) => Apply(x, op, at), x => Valid(x),
                                 (x: Graph, op: Operation) => Admits(x, op), good, g, ops);
    forall i | 0 <= i < done
      ensures Admits(states[i], ops[..done][i]) && Does(states[i], ops[..done][i], at, states[i + 1])
    {
      assert good(states[i], ops[..done][i], states[i + 1]);
    }
  }

  /** A changeset of a reachable store is carried out as a whole, operation by operation, if and only if each operation
      is admitted after those before it; else the store stays as it was. */
  lemma ChangesetIsExact(history: seq<Changeset>, change: Changeset)
    ensures var g, next := Run(history), Run(history + [change]);
            || (exists states :: CarriesOut(states, change.operations, change.at)
                                 && states[0] == g && states[|change.operations|] == next)
            || (next == g && exists states, done :: 0 <= done < |change.operations|
                                                    && CarriesOut(states, change.operations[..done], change.at)
                                                    && states[0] == g && !Admits(states[done], change.operations[done]))
  {
    RunIsValid(history);
    RunAppend(history, change);
    var states, done := AppliedInTurn(Run(history), change.operations, change.at);
    assert change.operations[..|change.operations|] == change.operations;
  }

  // ---- refusals --------------------------------------------------------------------------

  predicate ActsOnNode(op: Operation) {
    op.UpdateNode? || op.ArchiveNode? || op.SupersedeNode?
  }

  predicate ActsOnEdge(op: Operation) {
    op.UpdateEdge? || op.RetireEdge?
  }

  predicate BlankText(op: Operation) {
    match op
    case CreateNode(_, scope, _, _, kind, content, _, _, _, _, _) =>
      Strip(scope) == [] || Strip(kind) == [] || Strip(content) == []
    case SupersedeNode(id, _, replacement, _) => Strip(id) == [] || Strip(replacement) == []
    case CreateEdge(_, source, relation, target, _, _) =>
      Strip(source) == [] || Strip(relation) == [] || Strip(target) == []
    case Unrecognised => false
    case _ => Strip(op.id) == []
  }

  predicate LongText(op: Operation) {
    match op
    case CreateNode(_, scope, _, _, kind, _, _, _, _, _, _) => |Strip(scope)| > 160 || |Strip(kind)| > 96
    case SupersedeNode(id, _, replacement, _) => |Strip(id)| > 120 || |Strip(replacement)| > 120
    case CreateEdge(_, source, relation, target, _, _) =>
      |Strip(source)| > 120 || |Strip(relation)| > 120 || |Strip(target)| > 120
    case Unrecognised => false
    case _ => |Strip(op.id)| > 120
  }

  /** The revision an operation expects of the row it acts on. */
  function RevisionOn(g: Graph, op: Operation): Option<nat> {
    if ActsOnNode(op) && Strip(op.id) in g.nodes then Some(g.nodes[Strip(op.id)].revision)
    else if ActsOnEdge(op) && Strip(op.id) in g.edges then Some(g.edges[Strip(op.id)].revision)
    else None
  }

  predicate TakenId(g: Graph, op: Operation) {
    (op.CreateNode? && op.id in g.nodes) || (op.CreateEdge? && op.id in g.edges)
    || (op.SupersedeNode? && op.relationId in g.edges)
  }

  predicate MissingNode(g: Graph, op: Operation) {
    || ((ActsOnNode(op) || op.SetTaskStatus?) && Strip(op.id) !in g.nodes)
    || (op.SupersedeNode? && Strip(op.replacement) !in g.nodes)
    || (op.CreateEdge? && (Strip(op.source) !in g.nodes || Strip(op.target) !in g.nodes))
  }

  /** What each refusal says of the operation and the store. */
  predicate Explains(g: Graph, op: Operation, e: Error) {
    match e
    case TextEmpty(_) => BlankText(op)
    case TextTooLarge(_) => LongText(op)
    case NodeIdInvalid => op.CreateNode? && !IsId("mem-", op.id)
    case EdgeIdInvalid => op.CreateEdge? && !IsId("rel-", op.id)
    case IdConflict => TakenId(g, op)
    case NodeNotFound => MissingNode(g, op)
    case EdgeNotFound => ActsOnEdge(op) && Strip(op.id) !in g.edges
    case ExpectedRevisionRequired => (ActsOnNode(op) || ActsOnEdge(op)) && op.expected.None?
    case RevisionConflict =>
      RevisionOn(g, op).Some? && op.expected.Some? && op.expected.value != RevisionOn(g, op).value
    case NodeNotCurrent => ActsOnNode(op) && Strip(op.id) in g.nodes && g.nodes[Strip(op.id)].status != Current
    case EdgeNotCurrent => ActsOnEdge(op) && Strip(op.id) in g.edges && g.edges[Strip(op.id)].status != Live
    case TaskMustBeTerminal => (op.ArchiveNode? || op.SupersedeNode?) && !MayClose(g, Strip(op.id))
    case TaskKindImmutable => op.UpdateNode? && Strip(op.id) in g.tasks && Strip(op.kind) != "task"
    case TaskNodeInvalid =>
      op.SetTaskStatus? && Strip(op.id) in g.nodes
      && (g.nodes[Strip(op.id)].status != Current || g.nodes[Strip(op.id)].kind != "task")
    case TaskStateRevisionConflict =>
      op.SetTaskStatus? && Strip(op.id) in g.tasks && op.expected != Some(g.tasks[Strip(op.id)].revision)
    case TaskStateInvalid => op.SetTaskStatus? && op.state.None?
    case TaskNotFound => false
    case KindTooLarge =>
      op.UpdateNode? && Strip(op.id) in g.nodes
      && (|Strip(op.kind)| > 96 || (Strip(op.kind) == [] && |g.nodes[Strip(op.id)].kind| > 96))
    case RelationTooLarge =>
      op.UpdateEdge? && Strip(op.id) in g.edges
      && (|Strip(op.relation)| > 120 || (Strip(op.relation) == [] && |g.edges[Strip(op.id)].relation| > 120))
    case DomainInvalid => op.CreateNode? && op.domain.Malformed?
    case ContextKeyTooLarge => op.CreateNode? && op.contextKey.Malformed?
    case RetentionInvalid => (op.CreateNode? || op.UpdateNode?) && op.retention.Malformed?
    case EpistemicInvalid =>
      (op.CreateNode? || op.UpdateNode? || op.CreateEdge? || op.UpdateEdge?) && op.epistemic.Malformed?
    case RecallInvalid =>
      (op.CreateNode? || op.UpdateNode?)
      && (op.recall.Malformed? || (op.UpdateNode? && (op.addRecall.Malformed? || op.removeRecall.Malformed?)))
    case OperationInvalid => op.Unrecognised?
    case _ => (op.CreateNode? || op.UpdateNode? || op.CreateEdge? || op.UpdateEdge?) && op.anchors != []
  }

  predicate AnchorError(e: Error) {
    e.AnchorKindInvalid? || e.AnchorSourceRevisionInvalid? || e.AnchorSourceRevisionNotFound?
    || e.AnchorMemoryRefInvalid? || e.AnchorRelationRefInvalid?
  }

  lemma {:induction false} AnchorsRefuse(g: Graph, entity: Entity, id: string, revision: nat, raws: seq<AnchorInput>)
    ensures var r := StoreAnchors(g, entity, id, revision, raws);
            r.Err? ==> AnchorError(r.error) && raws != []
    decreases |raws|
  {
    if raws != [] && CheckAnchor(g, entity, id, revision, raws[0]).Ok? {
      AnchorsRefuse(g.(anchors := g.anchors + [CheckAnchor(g, entity, id, revision, raws[0]).value]), entity, id,
                    revision, raws[1..]);
    }
  }

  lemma NodeWriteRefuses(g: Graph, id: NodeId, row: NodeRow, tags: TagSet, raws: seq<AnchorInput>, opens: bool,
                         payload: Payload, at: nat)
    ensures var r := WriteNode(g, id, row, tags, raws, opens, payload, at);
            r.Err? ==> AnchorError(r.error) && raws != []
  {
    AnchorsRefuse(g.(nodes := g.nodes[id := row], tags := g.tags[id := tags]), NodeEntity, id, row.revision, raws);
  }

  lemma EdgeWriteRefuses(g: Graph, id: EdgeId, row: EdgeRow, raws: seq<AnchorInput>, payload: Payload, at: nat)
    ensures var r := WriteEdge(g, id, row, raws, payload, at);
            r.Err? ==> AnchorError(r.error) && raws != []
  {
    AnchorsRefuse(g.(edges := g.edges[id := row]), EdgeEntity, id, row.revision, raws);
  }

  lemma CreateNodeExplained(g: Graph, op: Operation, at: nat)
    requires op.CreateNode? && Apply(g, op, at).Err?
    ensures Explains(g, op, Apply(g, op, at).error)
  {
    if NewNodeRow(op, at).Ok? && op.id !in g.nodes {
      var row, tags := NewNodeRow(op, at).value, CleanTags(op.tags);
      NodeWriteRefuses(g, op.id, row, AddTags(map[], tags), op.anchors, row.kind == "task", CreationOf(row, tags), at);
    }
  }

  lemma UpdateNodeExplained(g: Graph, op: Operation, at: nat)
    requires op.UpdateNode? && Apply(g, op, at).Err?
    ensures Explains(g, op, Apply(g, op, at).error)
  {
    var found := FindCurrentNode(g, op.id, op.expected);
    if found.Ok? && RevisedNodeRow(g.nodes[found.value], found.value in g.tasks, op, at).Ok? {
      var id := found.value;
      var row := RevisedNodeRow(g.nodes[id], id in g.tasks, op, at).value;
      var added, removed := CleanTags(op.addTags), CleanTags(op.removeTags);
      NodeWriteRefuses(g, id, row, RemoveTags(AddTags(TagsOf(g, id), added), removed), op.anchors,
                       row.kind == "task" && id !in g.tasks, RevisionOf(row, added, removed), at);
    }
  }

  lemma SupersedeExplained(g: Graph, op: Operation, at: nat)
    requires Valid(g) && op.SupersedeNode? && Apply(g, op, at).Err?
    ensures Explains(g, op, Apply(g, op, at).error)
  {
    var found, replacement := FindClosable(g, op.id, op.expected), CleanText(op.replacement, "REPLACEMENT", Some(120));
    if found.Ok? && replacement.Ok? && replacement.value in g.nodes && op.relationId !in g.edges {
      SupersedeWrites(g, found.value, replacement.value, op.relationId, at);
      assert false;
    }
  }

  lemma EdgeOperationExplained(g: Graph, op: Operation, at: nat)
    requires (op.CreateEdge? || op.UpdateEdge?) && Apply(g, op, at).Err?
    ensures Explains(g, op, Apply(g, op, at).error)
  {
    if op.CreateEdge? && WellFormedArg(op.epistemic) {
      var epistemic := op.epistemic.Or(RELATION, EpistemicInvalid).value;
      EdgeWriteRefuses(g, op.id, EdgeRow(Strip(op.source), Strip(op.relation), Strip(op.target), epistemic,
                                         Evidenced(op.anchors, at, None), Live, 1), op.anchors,
                       EdgeCreated(Strip(op.source), Strip(op.relation), Strip(op.target), Some(epistemic)), at);
    } else if op.UpdateEdge? && TargetsEdge(g, op.id, op.expected) && MayRelabel(g.edges[Strip(op.id)], op) {
      UpdateEdgeApplies(g, op, at);
      var row := RelabelledRow(g.edges[Strip(op.id)], op, at);
      EdgeWriteRefuses(g, Strip(op.id), row, op.anchors, EdgeUpdated(row.relation, row.epistemic), at);
    }
  }

  lemma SetTaskStatusExplained(g: Graph, op: Operation, at: nat)
    requires Valid(g) && op.SetTaskStatus? && Apply(g, op, at).Err?
    ensures Explains(g, op, Apply(g, op, at).error)
  {
    RevisionsStartAtOne(g, Strip(op.id));
  }

  lemma ClosingExplained(g: Graph, op: Operation, at: nat)
    requires Valid(g) && (op.ArchiveNode? || op.RetireEdge?) && Apply(g, op, at).Err?
    ensures Explains(g, op, Apply(g, op, at).error)
  {
    if op.ArchiveNode? && FindClosable(g, op.id, op.expected).Ok? {
      ArchiveNodeIsExact(g, op, at);
    } else if op.RetireEdge? {
      RetireEdgeIsExact(g, op, at);
    }
  }

  /** Every refusal is true: the error an operation gets says something that is so. */
  lemma RefusalIsTrue(g: Graph, op: Operation, at: nat)
    requires Valid(g) && Apply(g, op, at).Err?
    ensures Explains(g, op, Apply(g, op, at).error)
  {
    if op.CreateNode? {
      CreateNodeExplained(g, op, at);
    } else if op.UpdateNode? {
      UpdateNodeExplained(g, op, at);
    } else if op.SupersedeNode? {
      SupersedeExplained(g, op, at);
    } else if op.CreateEdge? || op.UpdateEdge? {
      EdgeOperationExplained(g, op, at);
    } else if op.SetTaskStatus? {
      SetTaskStatusExplained(g, op, at);
    } else if op.ArchiveNode? || op.RetireEdge? {
      ClosingExplained(g, op, at);
    }
  }
}
