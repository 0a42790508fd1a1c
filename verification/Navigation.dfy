/** Memory Frontiers: a stored recall selection read page by page through light cursors in the ledger. */
module Navigation {
  import opened FrontierIds
  import opened Prelude
  import opened JsonValue
  import opened MemoryGraph
  import opened MemoryStore
  import opened RecallSelection
  import opened Ledger

  const CORE_MEMORY := "core.memory"

  /** The cursor a Memory Frontier carries; selector and selection are handed through unread. */
  datatype Cursor = Cursor(snapshotId: string, after: int, pageSize: int, selector: Json, selection: Json)

  datatype View = View(nodes: seq<NodeId>, frontiers: seq<nat>)

  /** The navigation state of one session beside the recall tables it shares with others; `mine` remembers
      which recall snapshots this session created. */
  datatype Nav = Nav(ledger: Ledger, epoch: nat, recalls: map<string, Selection>, view: View, mine: set<string>)

  datatype NavError = Refused(reason: LedgerError) | ContinuationInvalid | RecallNotFound

  datatype Delivery = Delivery(nodes: seq<NodeId>, frontiers: seq<nat>, remaining: nat)

  // ---- cursors ---------------------------------------------------------------------------

  function CursorPayload(c: Cursor): Json {
    JObject(map["memory_cursor" := JObject(map[
      "snapshot_id" := JString(c.snapshotId), "after_ordinal" := JNumber(Max(0, c.after)),
      "page_size" := JNumber(Max(1, c.pageSize)), "selector" := c.selector, "selection" := c.selection])])
  }

  function TextAt(members: map<string, Json>, key: string): string {
    if key in members && members[key].JString? then members[key].text else ""
  }

  function NumberAt(members: map<string, Json>, key: string, default: int): int {
    if key in members && members[key].JNumber? && members[key].number != 0 then members[key].number else default
  }

  function CursorIn(payload: Json): Option<Cursor> {
    if payload.Has("memory_cursor") && payload.members["memory_cursor"].JObject? then
      var m := payload.members["memory_cursor"].members;
      Some(Cursor(TextAt(m, "snapshot_id"), NumberAt(m, "after_ordinal", 0), Max(1, NumberAt(m, "page_size", 30)),
                  if "selector" in m then m["selector"] else JNull, if "selection" in m then m["selection"] else JNull))
    else None
  }

  lemma CursorRoundTrip(c: Cursor)
    ensures CursorIn(CursorPayload(c)) == Some(c.(after := Max(0, c.after), pageSize := Max(1, c.pageSize)))
    ensures Items(CursorPayload(c)) == None
  {
  }

  /** Publishes a cursor as a Memory Frontier when something remains behind it. */
  function Publish(naming: Naming, l: Ledger, epoch: nat, c: Cursor, remaining: nat): (Ledger, seq<nat>) {
    if c.snapshotId == "" || remaining == 0 then (l, [])
    else
      var (l1, handle) := RegisterSnapshot(naming, l, "memory_cursor", CursorPayload(c), epoch, CORE_MEMORY, "", 1, 0);
      var (l2, f) := Expose(l1, handle, epoch, CORE_MEMORY, remaining, "");
      (l2, [f])
  }

  // ---- activation and continuation -------------------------------------------------------

  /** Keeps the first occurrence of every id. */
  function MergeInto(merged: seq<NodeId>, rest: seq<NodeId>): seq<NodeId>
    decreases |rest|
  {
    if rest == [] then merged
    else MergeInto(if rest[0] in merged then merged else merged + [rest[0]], rest[1..])
  }

  function Merge(previous: seq<NodeId>, page: seq<NodeId>): seq<NodeId> {
    MergeInto([], previous + page)
  }

  /** The first page of a selection just stored as `id`. */
  function Activate(naming: Naming, nav: Nav, id: string, created: Selection, pageSize: int, selector: Json,
                    selection: Json): (Nav, Delivery) {
    var size := Max(1, pageSize);
    var page := PageOf(created, 0, size);
    var nodes := NodesOfItems(page.items);
    var (l, frontiers) := Publish(naming, nav.ledger, nav.epoch, Cursor(id, page.last, size, selector, selection),
                                  page.remaining);
    var recalls := if page.remaining > 0 then nav.recalls[id := created] else nav.recalls - {id};
    (Nav(l, nav.epoch, recalls, View(nodes, frontiers), nav.mine + {id}), Delivery(nodes, frontiers, page.remaining))
  }

  /** The next page of a Memory Frontier. A missing cursor or selection still consumes the Frontier. */
  function ContinueFrontier(naming: Naming, nav: Nav, f: nat): (Nav, Result<Delivery, NavError>) {
    var resolved := Resolve(nav.ledger, f, nav.epoch);
    if resolved.Err? then (nav, Err(Refused(resolved.error)))
    else
      var (l1, page) := Materialise(naming, nav.ledger, resolved.value, nav.epoch);
      if page.Err? then (nav.(ledger := l1), Err(Refused(page.error)))
      else
        var consumed := Consume(l1, f);
        var cursor := CursorIn(page.value.payload);
        if cursor.None? then (nav.(ledger := consumed), Err(ContinuationInvalid))
        else ContinueCursor(naming, nav.(ledger := consumed), cursor.value)
  }

  function ContinueCursor(naming: Naming, nav: Nav, c: Cursor): (Nav, Result<Delivery, NavError>) {
    if c.snapshotId !in nav.recalls then (nav, Err(RecallNotFound))
    else
      var page := PageOf(nav.recalls[c.snapshotId], Max(0, c.after), c.pageSize);
      var nodes := NodesOfItems(page.items);
      var (l, frontiers) := Publish(naming, nav.ledger, nav.epoch, c.(after := page.last), page.remaining);
      var recalls := if page.remaining > 0 then nav.recalls else nav.recalls - {c.snapshotId};
      (nav.(ledger := l, recalls := recalls, view := View(Merge(nav.view.nodes, nodes), frontiers)),
       Ok(Delivery(nodes, frontiers, page.remaining)))
  }

  /** The recall snapshots named by cursors of the ledger. */
  function CursorIds(l: Ledger): set<string> {
    set s | s in l.snapshots && CursorIn(l.snapshots[s].payload).Some?
            && Strip(CursorIn(l.snapshots[s].payload).value.snapshotId) != ""
          :: Strip(CursorIn(l.snapshots[s].payload).value.snapshotId)
  }

  /** The end of the logical task: its unopened selections go. */
  function ReleaseNavigation(nav: Nav): Nav {
    nav.(recalls := nav.recalls - CursorIds(nav.ledger))
  }

  // ---- dispatch --------------------------------------------------------------------------

  predicate OnMemory(l: Ledger, f: nat) {
    f < |l.frontiers| && l.frontiers[f].source == CORE_MEMORY
  }

  /** Dispatch looks the Frontier up by the id as written, so an alias misses the Memory route; the generic
      continuation then resolves the alias. */
  function Dispatch(naming: Naming, nav: Nav, written: string, revised: bool): Nav {
    var stored := Position(|nav.ledger.frontiers|, written);
    if stored.Some? && OnMemory(nav.ledger, stored.value) then ContinueFrontier(naming, nav, stored.value).0
    else
      match Canonical(|nav.ledger.frontiers|, written)
      case None => nav
      case Some(f) => nav.(ledger := ContinueObservation(naming, nav.ledger, nav.epoch, f, revised))
  }

  // ---- the session object ----------------------------------------------------------------

  class MemorySession {
    const ledger: ObservationLedger
    const tables: RecallTables
    var epoch: nat
    var view: View
    ghost var mine: set<string>

    constructor (ledger: ObservationLedger, tables: RecallTables)
      ensures this.ledger == ledger && this.tables == tables
      ensures State() == Nav(ledger.State(), 0, tables.snapshots, View([], []), {})
    {
      this.ledger, this.tables := ledger, tables;
      epoch, view, mine := 0, View([], []), {};
    }

    ghost function State(): Nav
      reads this, ledger, tables
    {
      Nav(ledger.State(), epoch, tables.snapshots, view, mine)
    }

    method PublishCursor(c: Cursor, remaining: nat) returns (frontiers: seq<nat>)
      modifies ledger
      ensures (ledger.State(), frontiers) == Publish(ledger.naming, old(ledger.State()), epoch, c, remaining)
    {
      if c.snapshotId == "" || remaining == 0 {
        return [];
      }
      var handle := ledger.RegisterSnapshotHandle("memory_cursor", CursorPayload(c), epoch, CORE_MEMORY, "", 1, 0);
      var f := ledger.ExposeHandle(handle, epoch, CORE_MEMORY, remaining, "");
      return [f];
    }

    /** Stores a selection of the graph as it is now and delivers its first page. */
    method ActivateMemory(g: Graph, index: seq<IndexRow>, searchable: bool, sel: Selector, matches: Matcher,
                          byRank: Order, byId: Order, id: string, owner: string, pageSize: int, selector: Json,
                          selection: Json)
      returns (r: Result<Delivery, RecallError>, ghost created: Selection)
      requires id !in tables.snapshots
      modifies this, ledger, tables
      ensures r.Ok? <==> Selective(sel) && WantedOnce(g, index, searchable, sel, matches)
      ensures r.Err? ==> State() == old(State())
      ensures r.Ok? ==> SelectionOf(g, index, searchable, sel, matches, byRank, byId, created)
      ensures r.Ok? ==> (State(), r.value) == Activate(ledger.naming, old(State()), id, created, pageSize, selector,
                                                       selection)
    {
      var stored := tables.CreateSnapshot(g, index, searchable, sel, matches, byRank, byId, id, owner);
      if stored.Err? {
        created := Selection(owner, 0, 0, 0, []);
        return Err(stored.error), created;
      }
      created := stored.value;
      var size := Max(1, pageSize);
      var page := PageOf(stored.value, 0, size);
      var nodes := NodesOfItems(page.items);
      var frontiers: seq<nat> := [];
      if page.remaining > 0 {
        frontiers := PublishCursor(Cursor(id, page.last, size, selector, selection), page.remaining);
      } else {
        tables.Release(id);
        assert tables.snapshots == old(tables.snapshots) - {id};
      }
      view, mine := View(nodes, frontiers), mine + {id};
      r := Ok(Delivery(nodes, frontiers, page.remaining));
    }

    method MergeNodes(page: seq<NodeId>) returns (merged: seq<NodeId>)
      ensures merged == Merge(view.nodes, page)
    {
      var all := view.nodes + page;
      merged := [];
      for i := 0 to |all|
        invariant MergeInto(merged, all[i..]) == Merge(view.nodes, page)
      {
        assert all[i..][1..] == all[i + 1..];
        if all[i] !in merged {
          merged := merged + [all[i]];
        }
      }
    }

    method ContinueMemory(f: nat) returns (r: Result<Delivery, NavError>)
      modifies this, ledger, tables
      ensures (State(), r) == ContinueFrontier(ledger.naming, old(State()), f)
    {
      var resolved := Resolve(Ledger(ledger.handles, ledger.snapshots, ledger.frontiers), f, epoch);
      if resolved.Err? {
        return Err(Refused(resolved.error));
      }
      var materialised := ledger.MaterialiseHandle(resolved.value, epoch);
      if materialised.Err? {
        return Err(Refused(materialised.error));
      }
      ledger.ConsumeFrontier(f);
      var cursor := CursorIn(materialised.value.payload);
      if cursor.None? {
        return Err(ContinuationInvalid);
      }
      var c := cursor.value;
      if c.snapshotId !in tables.snapshots {
        return Err(RecallNotFound);
      }
      var page := PageOf(tables.snapshots[c.snapshotId], Max(0, c.after), c.pageSize);
      var nodes := NodesOfItems(page.items);
      var frontiers: seq<nat> := [];
      if page.remaining > 0 {
        frontiers := PublishCursor(c.(after := page.last), page.remaining);
      } else {
        tables.Release(c.snapshotId);
      }
      var merged := MergeNodes(nodes);
      view := View(merged, frontiers);
      return Ok(Delivery(nodes, frontiers, page.remaining));
    }

    method ContinueGeneric(f: nat, revised: bool)
      modifies ledger
      ensures ledger.State() == ContinueObservation(ledger.naming, old(ledger.State()), epoch, f, revised)
    {
      var resolved := Resolve(Ledger(ledger.handles, ledger.snapshots, ledger.frontiers), f, epoch);
      if resolved.Err? {
        return;
      }
      var materialised := ledger.MaterialiseHandle(resolved.value, epoch);
      if materialised.Err? {
        return;
      }
      var next := materialised.value.next;
      if revised {
        if next.Some? {
          ledger.ReleaseHandle(next.value);
        }
        ledger.StaleFrontier(f, "source_revision_changed");
        return;
      }
      ledger.ConsumeFrontier(f);
      if next.Some? {
        var _ := ledger.ExposeHandle(next.value, epoch, CONTINUE_OBSERVATION, materialised.value.Remaining(),
                                     "continuation");
      }
    }

    method DispatchContinue(written: string, revised: bool)
      modifies this, ledger, tables
      ensures State() == Dispatch(ledger.naming, old(State()), written, revised)
    {
      var stored := Position(|ledger.frontiers|, written);
      if stored.Some? && ledger.frontiers[stored.value].source == CORE_MEMORY {
        var _ := ContinueMemory(stored.value);
        return;
      }
      var canonical := Canonical(|ledger.frontiers|, written);
      if canonical.Some? {
        ContinueGeneric(canonical.value, revised);
      }
    }

    method ReleaseEach(ids: set<string>)
      modifies tables
      ensures tables.snapshots == old(tables.snapshots) - ids
    {
      var rest := ids;
      while rest != {}
        invariant rest <= ids
        invariant tables.snapshots == old(tables.snapshots) - (ids - rest)
        decreases |rest|
      {
        var id :| id in rest;
        tables.Release(id);
        rest := rest - {id};
      }
      assert ids - {} == ids;
    }

    method ReleaseMemoryNavigation()
      modifies tables
      ensures State() == ReleaseNavigation(old(State()))
    {
      ReleaseEach(CursorIds(Ledger(ledger.handles, ledger.snapshots, ledger.frontiers)));
    }
  }
}
