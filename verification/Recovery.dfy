/** Collecting orphaned recall snapshots while sessions are pending on disk, and resuming one of them afterwards. */
module Recovery {
  import opened JsonValue
  import opened Ledger
  import opened LedgerProofs
  import opened Navigation
  import opened NavigationProofs
  import opened Persistence
  import opened Prelude
  import opened RecallSelection

  // ---- what the pending sessions keep alive ----------------------------------------------

  function MemberOf(v: Json, key: string): Json {
    if v.JObject? && key in v.members then v.members[key] else JNull
  }

  function ExecutionId(pending: Json): string {
    var id := MemberOf(MemberOf(pending, "execution_state"), "execution_id");
    if id.JString? then Strip(id.text) else ""
  }

  function LiveIds(pendings: seq<Json>): set<string> {
    set k | 0 <= k < |pendings| && ExecutionId(pendings[k]) != "" :: ExecutionId(pendings[k])
  }

  function PreservedIds(pendings: seq<Json>): set<string> {
    set k, id | 0 <= k < |pendings| && id in SnapshotIds(MemberOf(pendings[k], "session")) :: id
  }

  function Collected(recalls: map<string, Selection>, live: set<string>, preserved: set<string>)
    : map<string, Selection> {
    map id | id in recalls && Kept(id, recalls[id].owner, live, preserved) :: recalls[id]
  }

  /** Scans every pending session, then removes what neither a scan nor a live owner keeps. */
  method CollectOrphanNavigation(pendings: seq<Json>, tables: RecallTables)
    modifies tables
    ensures tables.snapshots == Collected(old(tables.snapshots), LiveIds(pendings), PreservedIds(pendings))
  {
    var live, preserved := {}, {};
    for k := 0 to |pendings|
      invariant live == LiveIds(pendings[..k]) && preserved == PreservedIds(pendings[..k])
      invariant tables.snapshots == old(tables.snapshots)
    {
      var id := ExecutionId(pendings[k]);
      OneMore(pendings, k);
      if id != "" {
        live := live + {id};
      }
      preserved := Scan(MemberOf(pendings[k], "session"), preserved);
    }
    assert pendings[..|pendings|] == pendings;
    var _ := tables.CollectOrphans(live, preserved);
  }

  lemma OneMore(pendings: seq<Json>, k: nat)
    requires k < |pendings|
    ensures LiveIds(pendings[..k + 1])
            == LiveIds(pendings[..k]) + (if ExecutionId(pendings[k]) == "" then {} else {ExecutionId(pendings[k])})
    ensures PreservedIds(pendings[..k + 1])
            == PreservedIds(pendings[..k]) + SnapshotIds(MemberOf(pendings[k], "session"))
  {
    var more, fewer := pendings[..k + 1], pendings[..k];
    assert forall i :: 0 <= i < k ==> more[i] == fewer[i];
    assert more[k] == pendings[k];
  }

  /** The session of a pending record mentions the id, at any depth. */
  ghost predicate SessionMentioning(pending: Json, id: string) {
    exists path :: MentionedAt(pending, [Member("session")] + path, id)
  }

  /** The pending record is of the execution that owns the selection. */
  predicate OwnedBy(pending: Json, owner: string) {
    var found := At(pending, [Member("execution_state"), Member("execution_id")]);
    found.Some? && found.value.JString? && Strip(found.value.text) == Strip(owner) != ""
  }

  lemma SessionPart(pending: Json, id: string)
    ensures Mentions(MemberOf(pending, "session"), id) <==> SessionMentioning(pending, id)
  {
    var session := MemberOf(pending, "session");
    if path :| MentionedAt(session, path, id) {
      AtStep(pending, Member("session"), path);
      assert pending.JObject? && "session" in pending.members;
      var whole := [Member("session")] + path;
      assert whole[|whole| - 1] == path[|path| - 1];
      assert MentionedAt(pending, whole, id);
    }
    if path :| MentionedAt(pending, [Member("session")] + path, id) {
      AtStep(pending, Member("session"), path);
      var whole := [Member("session")] + path;
      assert whole[0] == Member("session") != Member("snapshot_id") == whole[|whole| - 1];
      assert |path| > 0;
      assert whole[|whole| - 1] == path[|path| - 1];
      assert MentionedAt(session, path, id);
    }
  }

  lemma ExecutionPart(pending: Json, owner: string)
    ensures OwnedBy(pending, owner) <==> Strip(owner) != "" && ExecutionId(pending) == Strip(owner)
  {
    AtStep(pending, Member("execution_state"), [Member("execution_id")]);
    var state := MemberOf(pending, "execution_state");
    AtStep(state, Member("execution_id"), []);
    assert [Member("execution_state")] + [Member("execution_id")]
           == [Member("execution_state"), Member("execution_id")];
    assert [Member("execution_id")] + [] == [Member("execution_id")];
  }

  /** Exactly the selections that some pending session mentions, at any depth, or whose owner is pending survive, and
      they survive unchanged. */
  lemma CollectionIsExact(recalls: map<string, Selection>, pendings: seq<Json>, id: string)
    ensures var kept := Collected(recalls, LiveIds(pendings), PreservedIds(pendings));
            && (id in kept
                <==> && id in recalls
                     && exists k :: 0 <= k < |pendings|
                                    && (SessionMentioning(pendings[k], id) || OwnedBy(pendings[k], recalls[id].owner)))
            && (id in kept ==> kept[id] == recalls[id])
  {
    forall k | 0 <= k < |pendings|
      ensures id in SnapshotIds(MemberOf(pendings[k], "session")) <==> SessionMentioning(pendings[k], id)
      ensures id in recalls ==> (OwnedBy(pendings[k], recalls[id].owner)
                                 <==> Strip(recalls[id].owner) != ""
                                      && ExecutionId(pendings[k]) == Strip(recalls[id].owner))
    {
      ScanIsExact(MemberOf(pendings[k], "session"), id);
      SessionPart(pendings[k], id);
      if id in recalls {
        ExecutionPart(pendings[k], recalls[id].owner);
      }
    }
  }

  // ---- a session that is persisted and resumed -------------------------------------------

  lemma MemberMentions(members: map<string, Json>, key: string, id: string)
    requires key in members && Mentions(members[key], id)
    ensures Mentions(JObject(members), id)
  {
    AtStep(JObject(members), Member(key), []);
    MentionDeeper(JObject(members), Member(key), members[key], id);
  }

  lemma CursorMentions(c: Cursor)
    requires Strip(c.snapshotId) == c.snapshotId != ""
    ensures Mentions(CursorPayload(c), c.snapshotId)
  {
    var payload := CursorPayload(c);
    var inner := payload.members["memory_cursor"];
    AtStep(inner, Member("snapshot_id"), []);
    assert MentionedAt(inner, [Member("snapshot_id")], c.snapshotId);
    MemberMentions(payload.members, "memory_cursor", c.snapshotId);
  }

  lemma SnapshotMentions(id: string, s: Snapshot, mentioned: string)
    requires Mentions(s.payload, mentioned) && s.payload != JNull
    ensures Mentions(EncodeSnapshot(id, s), mentioned)
  {
    MemberMentions(EncodeSnapshot(id, s).members, "payload", mentioned);
  }

  lemma LedgerMentions(l: Ledger, rest: map<string, Json>, s: string, mentioned: string)
    requires s in l.snapshots && Mentions(l.snapshots[s].payload, mentioned) && l.snapshots[s].payload != JNull
    ensures Mentions(EncodeLedger(l, rest), mentioned)
  {
    SnapshotMentions(s, l.snapshots[s], mentioned);
    var store := EncodeStore(l.snapshots, EncodeSnapshot);
    MemberMentions(store, s, mentioned);
    LedgerHolds(l, rest);
    MemberMentions(EncodeLedger(l, rest).members, "snapshots", mentioned);
  }

  lemma LedgerHolds(l: Ledger, rest: map<string, Json>)
    ensures "snapshots" in EncodeLedger(l, rest).members
    ensures EncodeLedger(l, rest).members["snapshots"] == JObject(EncodeStore(l.snapshots, EncodeSnapshot))
  {
  }

  lemma SessionMentions(s: Session, e: Extras, mentioned: string)
    requires Mentions(EncodeLedger(s.ledger, e.ledger), mentioned)
    ensures Mentions(EncodeSession(s, e), mentioned)
  {
    MemberMentions(EncodeSession(s, e).members, "observation_ledger", mentioned);
  }

  /** A persisted session mentions the selection behind each of its open Memory Frontiers. */
  lemma PersistedMentions(naming: Naming, nav: Nav, e: Extras, f: nat, c: Cursor)
    requires NavSound(naming, nav) && CursorStands(nav, f, c)
    ensures Mentions(EncodeSession(Session(nav.ledger, nav.epoch, nav.view), e), c.snapshotId)
  {
    var l, h := nav.ledger, nav.ledger.frontiers[f].handle;
    var s := l.handles[h].snapshotId;
    assert Names(l, h, c.snapshotId);
    assert HasCursor(l, c.snapshotId);
    assert Shaped(l.snapshots[s].payload) && l.snapshots[s].payload == CursorPayload(c);
    CursorMentions(c);
    LedgerMentions(l, e.ledger, s, c.snapshotId);
    SessionMentions(Session(l, nav.epoch, nav.view), e, c.snapshotId);
  }

  /** Persisting a session, collecting orphans over all pending sessions and restoring it: the restored session is
      the same, its selection is still stored, and continuing its Frontier gives what it would have given. */
  lemma RestartIsInvisible(naming: Naming, nav: Nav, e: Extras, pendings: seq<Json>, k: nat, f: nat, c: Cursor)
    requires NavSound(naming, nav) && CursorStands(nav, f, c)
    requires Complete(SCHEMA, e) && forall i :: 0 <= i < |nav.view.nodes| ==> NotBlank(nav.view.nodes[i])
    requires k < |pendings|
    requires MemberOf(pendings[k], "session") == EncodeSession(Session(nav.ledger, nav.epoch, nav.view), e)
    ensures DecodeSession(SCHEMA, MemberOf(pendings[k], "session")).Some?
    ensures var restored := DecodeSession(SCHEMA, MemberOf(pendings[k], "session")).value;
            var recalls := Collected(nav.recalls, LiveIds(pendings), PreservedIds(pendings));
            var nav1 := Nav(restored.ledger, restored.epoch, recalls, restored.view, nav.mine);
            && NavSound(naming, nav1) && CursorStands(nav1, f, c)
            && (c.snapshotId in nav.recalls ==>
                  c.snapshotId in recalls && recalls[c.snapshotId] == nav.recalls[c.snapshotId])
            && SameOutcome(ContinueFrontier(naming, nav1, f), ContinueFrontier(naming, nav, f))
  {
    SessionRoundTrip(Session(nav.ledger, nav.epoch, nav.view), e);
    var recalls := Collected(nav.recalls, LiveIds(pendings), PreservedIds(pendings));
    PersistedMentions(naming, nav, e, f, c);
    SessionPart(pendings[k], c.snapshotId);
    CollectionIsExact(nav.recalls, pendings, c.snapshotId);
    forall id | id in recalls
      ensures id in nav.recalls && recalls[id] == nav.recalls[id]
    {
      CollectionIsExact(nav.recalls, pendings, id);
    }
    SameContinuation(naming, nav, recalls, f, c);
  }

  /** The same delivery or error, the same ledger and the same view. */
  predicate SameOutcome(a: (Nav, Result<Delivery, NavError>), b: (Nav, Result<Delivery, NavError>)) {
    a.1 == b.1 && a.0.ledger == b.0.ledger && a.0.view == b.0.view
  }

  /** A continuation looks at no other selection than its own. */
  lemma SameContinuation(naming: Naming, nav: Nav, recalls: map<string, Selection>, f: nat, c: Cursor)
    requires NavSound(naming, nav) && CursorStands(nav, f, c)
    requires forall id :: id in recalls ==> id in nav.recalls && recalls[id] == nav.recalls[id]
    requires c.snapshotId in nav.recalls ==> c.snapshotId in recalls
    ensures var nav1 := nav.(recalls := recalls);
            && NavSound(naming, nav1) && CursorStands(nav1, f, c)
            && SameOutcome(ContinueFrontier(naming, nav1, f), ContinueFrontier(naming, nav, f))
  {
    OthersChangeFits(nav, recalls);
    StandingMaterialises(naming, nav, f, c);
    StandingMaterialises(naming, nav.(recalls := recalls), f, c);
    if c.snapshotId in recalls {
      assert Fits(nav.recalls, c) && Fits(recalls, c);
      ContinueCursorReads(naming, nav.(ledger := Consume(nav.ledger, f)), c);
      ContinueCursorReads(naming, nav.(ledger := Consume(nav.ledger, f), recalls := recalls), c);
    }
  }
}
