/** Reading a selection through Memory Frontiers delivers it once and in order, and leaves nothing behind. */
module NavigationProofs {
  import opened FrontierIds
  import opened Prelude
  import opened JsonValue
  import opened MemoryGraph
  import opened RecallSelection
  import opened Ledger
  import opened LedgerProofs
  import opened Navigation

  // ---- what the cursors of a ledger satisfy ----------------------------------------------

  /** The cursor behind a handle. */
  function CursorOf(l: Ledger, h: string): Option<Cursor> {
    if h in l.handles && l.handles[h].snapshotId in l.snapshots
    then CursorIn(l.snapshots[l.handles[h].snapshotId].payload)
    else None
  }

  predicate Names(l: Ledger, h: string, id: string) {
    CursorOf(l, h).Some? && CursorOf(l, h).value.snapshotId == id
  }

  predicate Shaped(payload: Json) {
    payload.Has("memory_cursor") ==> CursorIn(payload).Some? && payload == CursorPayload(CursorIn(payload).value)
  }

  predicate AllShaped(l: Ledger) {
    forall s {:trigger Shaped(l.snapshots[s].payload)} :: s in l.snapshots ==> Shaped(l.snapshots[s].payload)
  }

  /** No two handles read the same selection. */
  ghost predicate OneCursor(l: Ledger) {
    forall h, k, id :: Names(l, h, id) && Names(l, k, id) ==> h == k
  }

  /** A Frontier is routed to Memory exactly when a cursor stands behind it. */
  ghost predicate Routed(l: Ledger) {
    forall f: nat :: IsOpen(l, f) ==> (OnMemory(l, f) <==> CursorOf(l, l.frontiers[f].handle).Some?)
  }

  ghost predicate MemorySound(naming: Naming, l: Ledger) {
    Distinct(naming) && Sound(naming, l) && Aligned(l) && AllShaped(l) && OneCursor(l) && Routed(l)
  }

  ghost predicate HasCursor(l: Ledger, id: string) {
    exists h :: Names(l, h, id)
  }

  ghost predicate WellFormed(sel: Selection) {
    sel.selected == |sel.items| && OrdinalsFromOne(sel.items) && NodesUnique(sel.items)
  }

  /** The cursor stands inside its selection, as long as that is stored. */
  ghost predicate Fits(recalls: map<string, Selection>, c: Cursor) {
    && c.after >= 0 && c.pageSize >= 1
    && (c.snapshotId in recalls ==> WellFormed(recalls[c.snapshotId]) && c.after <= recalls[c.snapshotId].selected)
  }

  ghost predicate AllFit(l: Ledger, recalls: map<string, Selection>) {
    forall h :: CursorOf(l, h).Some? ==> Fits(recalls, CursorOf(l, h).value)
  }

  /** Every live selection of the session is named by a cursor in its ledger, and cursors name nothing else. */
  ghost predicate NavSound(naming: Naming, nav: Nav) {
    && MemorySound(naming, nav.ledger)
    && AllFit(nav.ledger, nav.recalls)
    && (forall id :: id in nav.mine && id in nav.recalls ==> HasCursor(nav.ledger, id))
    && (forall id :: HasCursor(nav.ledger, id) ==> id in nav.mine)
    && (forall id :: id in nav.mine ==> Strip(id) == id != "")
  }

  ghost predicate SameCursors(l: Ledger, l1: Ledger) {
    forall h :: CursorOf(l1, h) == CursorOf(l, h)
  }

  /** Every cursor of the first ledger is the same in the second. */
  ghost predicate KeepsCursors(l: Ledger, l1: Ledger) {
    forall h :: CursorOf(l, h).Some? ==> CursorOf(l1, h) == CursorOf(l, h)
  }

  // ---- each ledger operation -------------------------------------------------------------

  lemma RegisterCursors(naming: Naming, l: Ledger, kind: string, payload: Json, epoch: nat, source: string,
                        description: string, pageSize: int, offset: int)
    requires Distinct(naming) && Sound(naming, l)
    ensures var (l1, id) := RegisterSnapshot(naming, l, kind, payload, epoch, source, description, pageSize, offset);
            && (forall h :: CursorOf(l1, h) == if h == id then CursorIn(payload) else CursorOf(l, h))
            && (AllShaped(l) && Shaped(payload) ==> AllShaped(l1))
  {
    var (l1, id) := RegisterSnapshot(naming, l, kind, payload, epoch, source, description, pageSize, offset);
    var s := l1.handles[id].snapshotId;
    assert s in l.snapshots ==> SnapshotSound(naming, l, s);
    assert l1.snapshots[s].payload == payload;
    forall h | h in l.handles && h != id
      ensures CursorOf(l1, h) == CursorOf(l, h)
    {
      assert HandleSound(naming, l, h);
    }
  }

  lemma MaterialiseCursors(naming: Naming, l: Ledger, id: string, epoch: nat)
    requires Distinct(naming) && Sound(naming, l) && AllShaped(l)
    ensures var (l1, page) := Materialise(naming, l, id, epoch);
            && SameCursors(l, l1)
            && (page.Ok? && page.value.next.Some? ==> CursorOf(l1, page.value.next.value).None?)
            && (CursorOf(l, id).Some? && page.Ok? ==> l1 == l && page.value.next.None?
                                                      && CursorIn(page.value.payload) == CursorOf(l, id))
  {
    var (l1, page) := Materialise(naming, l, id, epoch);
    if page.Ok? {
      assert HandleSound(naming, l, id);
      var payload := l.snapshots[l.handles[id].snapshotId].payload;
      assert Shaped(payload);
      if page.value.next.Some? {
        var next := page.value.next.value;
        assert Items(payload).Some?;
        assert CursorIn(payload).None?;
        assert next in l.handles ==> HandleSound(naming, l, next);
        assert l1.handles[next].snapshotId == l.handles[id].snapshotId;
        assert next in l.handles ==> l.handles[next].snapshotId == l.handles[id].snapshotId;
      }
    }
  }

  lemma ReleaseCursors(naming: Naming, l: Ledger, id: string)
    requires Filed(naming, l)
    ensures forall h :: CursorOf(Release(l, id), h) == if h == id then None else CursorOf(l, h)
    ensures AllShaped(l) ==> AllShaped(Release(l, id))
  {
    if id in l.handles {
      var rest := l.handles - {id};
      forall h | h in rest
        ensures CursorOf(Release(l, id), h) == CursorOf(l, h)
      {
        assert rest[h] == l.handles[h];
      }
    }
  }

  /** Closing an open Frontier takes its own cursor away, and no other. */
  lemma CloseCursors(naming: Naming, l: Ledger, f: nat, closed: Frontier)
    requires Sound(naming, l) && IsOpen(l, f) && closed.status != Open
    ensures var l1 := Release(l.(frontiers := l.frontiers[f := closed]), l.frontiers[f].handle);
            && (forall h :: CursorOf(l1, h) == if h == l.frontiers[f].handle then None else CursorOf(l, h))
            && (AllShaped(l) ==> AllShaped(l1))
  {
    var l0 := l.(frontiers := l.frontiers[f := closed]);
    SameFiled(naming, l, l0);
    ReleaseCursors(naming, l0, l.frontiers[f].handle);
    assert forall h :: CursorOf(l0, h) == CursorOf(l, h);
  }

  lemma CloseKeeps(naming: Naming, l: Ledger, f: nat, closed: Frontier)
    requires MemorySound(naming, l) && IsOpen(l, f) && closed.status != Open
    ensures var l1 := Release(l.(frontiers := l.frontiers[f := closed]), l.frontiers[f].handle);
            MemorySound(naming, l1)
  {
    var h := l.frontiers[f].handle;
    var l1 := Release(l.(frontiers := l.frontiers[f := closed]), h);
    CloseSound(naming, l, f, closed);
    CloseCursors(naming, l, f, closed);
    forall g: nat | IsOpen(l1, g)
      ensures OnMemory(l1, g) <==> CursorOf(l1, l1.frontiers[g].handle).Some?
    {
      assert IsOpen(l, g) && g != f && l1.frontiers[g] == l.frontiers[g];
      assert l.frontiers[g].handle != h;
    }
    assert forall x, id :: Names(l1, x, id) ==> Names(l, x, id);
  }

  lemma ConsumeKeeps(naming: Naming, l: Ledger, f: nat)
    requires MemorySound(naming, l) && IsOpen(l, f)
    ensures MemorySound(naming, Consume(l, f))
    ensures forall h :: CursorOf(Consume(l, f), h) == if h == l.frontiers[f].handle then None else CursorOf(l, h)
    ensures forall g: nat :: g != f && g < |l.frontiers| ==> Consume(l, f).frontiers[g] == l.frontiers[g]
  {
    var closed := l.frontiers[f].(status := Consumed);
    CloseKeeps(naming, l, f, closed);
    CloseCursors(naming, l, f, closed);
  }

  /** Other cursors decide which handle names a selection: with the same cursors it stays the same one. */
  lemma SameCursorsKeep(naming: Naming, l: Ledger, l1: Ledger)
    requires MemorySound(naming, l) && SameCursors(l, l1)
    requires Sound(naming, l1) && Aligned(l1) && AllShaped(l1)
    requires forall f: nat :: IsOpen(l1, f) ==> IsOpen(l, f) && l1.frontiers[f] == l.frontiers[f]
    ensures MemorySound(naming, l1)
  {
    assert forall h, id :: Names(l1, h, id) <==> Names(l, h, id);
  }

  /** A cursor for a selection nothing names yet gets a handle of its own. */
  lemma HandleIsNew(naming: Naming, l: Ledger, epoch: nat, c: Cursor)
    requires Distinct(naming) && Sound(naming, l) && !HasCursor(l, c.snapshotId) && c.after >= 0 && c.pageSize >= 1
    ensures RegisterSnapshot(naming, l, "memory_cursor", CursorPayload(c), epoch, CORE_MEMORY, "", 1, 0).1 !in l.handles
  {
    var (l0, handle) := RegisterSnapshot(naming, l, "memory_cursor", CursorPayload(c), epoch, CORE_MEMORY, "", 1, 0);
    CursorRoundTrip(c);
    if handle in l.handles {
      assert HandleSound(naming, l, handle);
      var s := l.handles[handle].snapshotId;
      assert HandleKeyOf(l.handles[handle]) == HandleKeyOf(l0.handles[handle]);
      assert SnapshotSound(naming, l, s);
      assert l.snapshots[s].payload == CursorPayload(c);
      assert Names(l, handle, c.snapshotId);
    }
  }

  /** Publishing a cursor for a selection nothing names yet adds one Frontier over one new handle. */
  lemma PublishAdds(naming: Naming, l: Ledger, epoch: nat, c: Cursor, remaining: nat)
    requires Distinct(naming) && Sound(naming, l) && !HasCursor(l, c.snapshotId)
    requires c.snapshotId != "" && c.after >= 0 && c.pageSize >= 1 && remaining > 0
    ensures var (l0, handle) := RegisterSnapshot(naming, l, "memory_cursor", CursorPayload(c), epoch, CORE_MEMORY, "",
                                                 1, 0);
            && handle !in l.handles
            && Publish(naming, l, epoch, c, remaining)
               == (l0.(frontiers := l.frontiers + [Frontier(handle, epoch, CORE_MEMORY, remaining, "", Open, None)]),
                   [|l.frontiers|])
  {
    HandleIsNew(naming, l, epoch, c);
    var (l0, handle) := RegisterSnapshot(naming, l, "memory_cursor", CursorPayload(c), epoch, CORE_MEMORY, "", 1, 0);
    assert forall f: nat :: IsOpen(l, f) ==> !Holds(l0, f, handle);
  }

  /** A ledger to which a Frontier over a new handle has just been added. */
  ghost predicate Published(naming: Naming, l: Ledger, l1: Ledger, epoch: nat, c: Cursor) {
    var f := |l.frontiers|;
    && Sound(naming, l1) && Aligned(l1) && AllShaped(l1)
    && |l1.frontiers| == f + 1 && l1.frontiers[..f] == l.frontiers
    && IsOpen(l1, f) && OnMemory(l1, f) && l1.frontiers[f].epoch == epoch && l1.frontiers[f].handle !in l.handles
    && forall h :: CursorOf(l1, h) == if h == l1.frontiers[f].handle then Some(c) else CursorOf(l, h)
  }

  lemma PublishPublishes(naming: Naming, l: Ledger, epoch: nat, c: Cursor, remaining: nat)
    requires Distinct(naming) && Sound(naming, l) && Aligned(l) && AllShaped(l) && !HasCursor(l, c.snapshotId)
    requires c.snapshotId != "" && c.after >= 0 && c.pageSize >= 1 && remaining > 0
    ensures var (l1, frontiers) := Publish(naming, l, epoch, c, remaining);
            Published(naming, l, l1, epoch, c) && frontiers == [|l.frontiers|]
  {
    var payload := CursorPayload(c);
    CursorRoundTrip(c);
    RegisterSnapshotSound(naming, l, "memory_cursor", payload, epoch, CORE_MEMORY, "", 1, 0);
    RegisterCursors(naming, l, "memory_cursor", payload, epoch, CORE_MEMORY, "", 1, 0);
    PublishAdds(naming, l, epoch, c, remaining);
    var (l0, handle) := RegisterSnapshot(naming, l, "memory_cursor", payload, epoch, CORE_MEMORY, "", 1, 0);
    ExposeSound(naming, l0, handle, epoch, CORE_MEMORY, remaining, "");
    var l1 := Expose(l0, handle, epoch, CORE_MEMORY, remaining, "").0;
    assert forall h :: CursorOf(l1, h) == CursorOf(l0, h);
  }

  lemma PublishKeeps(naming: Naming, l: Ledger, epoch: nat, c: Cursor, remaining: nat)
    requires MemorySound(naming, l) && !HasCursor(l, c.snapshotId)
    requires c.snapshotId != "" && c.after >= 0 && c.pageSize >= 1 && remaining > 0
    ensures var (l1, frontiers) := Publish(naming, l, epoch, c, remaining);
            && MemorySound(naming, l1) && Published(naming, l, l1, epoch, c) && frontiers == [|l.frontiers|]
            && forall id :: HasCursor(l1, id) <==> HasCursor(l, id) || id == c.snapshotId
  {
    PublishPublishes(naming, l, epoch, c, remaining);
    var l1 := Publish(naming, l, epoch, c, remaining).0;
    NewCursorKeeps(l, l1, c, l1.frontiers[|l.frontiers|].handle);
    CursorAdded(l, l1, l1.frontiers[|l.frontiers|].handle, c);
  }

  lemma NewCursorKeeps(l: Ledger, l1: Ledger, c: Cursor, handle: string)
    requires OneCursor(l) && Routed(l) && !HasCursor(l, c.snapshotId) && OpenLive(l) && handle !in l.handles
    requires forall h :: CursorOf(l1, h) == if h == handle then Some(c) else CursorOf(l, h)
    requires |l1.frontiers| == |l.frontiers| + 1 && OnMemory(l1, |l.frontiers|)
    requires l1.frontiers[|l.frontiers|].handle == handle
    requires l1.frontiers[..|l.frontiers|] == l.frontiers
    ensures OneCursor(l1) && Routed(l1)
  {
    forall h, k, id | Names(l1, h, id) && Names(l1, k, id)
      ensures h == k
    {
      assert h != handle ==> Names(l, h, id);
      assert k != handle ==> Names(l, k, id);
    }
    forall f: nat | IsOpen(l1, f)
      ensures OnMemory(l1, f) <==> CursorOf(l1, l1.frontiers[f].handle).Some?
    {
      assert f < |l.frontiers| ==> l1.frontiers[f] == l.frontiers[f] && IsOpen(l, f);
    }
  }

  // ---- continuing a Memory Frontier ------------------------------------------------------

  /** Frontier `f` reads its selection from the cursor `c`. */
  ghost predicate CursorStands(nav: Nav, f: nat, c: Cursor) {
    IsOpen(nav.ledger, f) && nav.ledger.frontiers[f].epoch == nav.epoch
    && CursorOf(nav.ledger, nav.ledger.frontiers[f].handle) == Some(c)
  }

  /** A standing Frontier materialises its own cursor. */
  lemma StandingMaterialises(naming: Naming, nav: Nav, f: nat, c: Cursor)
    requires NavSound(naming, nav) && CursorStands(nav, f, c)
    ensures ContinueFrontier(naming, nav, f) == ContinueCursor(naming, nav.(ledger := Consume(nav.ledger, f)), c)
  {
    var l := nav.ledger;
    var h := l.frontiers[f].handle;
    assert HandleSound(naming, l, h);
    assert Resolve(l, f, nav.epoch) == Ok(h);
    ResolvedMaterialises(naming, l, f, nav.epoch);
    MaterialiseCursors(naming, l, h, nav.epoch);
  }

  /** With its Frontier consumed, nothing names the selection, and all others are named as before. */
  lemma ConsumedUnnames(naming: Naming, l: Ledger, f: nat, c: Cursor)
    requires MemorySound(naming, l) && IsOpen(l, f) && CursorOf(l, l.frontiers[f].handle) == Some(c)
    ensures var l1 := Consume(l, f);
            && MemorySound(naming, l1) && HasCursor(l, c.snapshotId)
            && (forall id :: HasCursor(l1, id) <==> HasCursor(l, id) && id != c.snapshotId)
            && (forall h :: CursorOf(l1, h).Some? ==> CursorOf(l1, h) == CursorOf(l, h))
  {
    ConsumeKeeps(naming, l, f);
    CursorRemoved(l, Consume(l, f), l.frontiers[f].handle, c);
  }

  lemma CursorRemoved(l: Ledger, l1: Ledger, h: string, c: Cursor)
    requires OneCursor(l) && CursorOf(l, h) == Some(c)
    requires forall k :: CursorOf(l1, k) == if k == h then None else CursorOf(l, k)
    ensures HasCursor(l, c.snapshotId)
    ensures forall id :: HasCursor(l1, id) <==> HasCursor(l, id) && id != c.snapshotId
  {
    assert Names(l, h, c.snapshotId);
    forall id
      ensures HasCursor(l1, id) <==> HasCursor(l, id) && id != c.snapshotId
    {
      if HasCursor(l1, id) {
        var k :| Names(l1, k, id);
        assert Names(l, k, id);
      }
      if HasCursor(l, id) && id != c.snapshotId {
        var k :| Names(l, k, id);
        assert Names(l1, k, id);
      }
    }
  }

  lemma CursorAdded(l: Ledger, l1: Ledger, h: string, c: Cursor)
    requires CursorOf(l, h) == None
    requires forall k :: CursorOf(l1, k) == if k == h then Some(c) else CursorOf(l, k)
    ensures forall id :: HasCursor(l1, id) <==> HasCursor(l, id) || id == c.snapshotId
  {
    assert Names(l1, h, c.snapshotId);
    forall id
      ensures HasCursor(l1, id) <==> HasCursor(l, id) || id == c.snapshotId
    {
      if HasCursor(l1, id) {
        var k :| Names(l1, k, id);
        assert k != h ==> Names(l, k, id);
      }
      if HasCursor(l, id) {
        var k :| Names(l, k, id);
        assert Names(l1, k, id);
      }
    }
  }

  /** The state and the page after reading a selection on from `c` up to `last`. */
  function ReadTo(naming: Naming, nav: Nav, c: Cursor, sel: Selection, last: nat): (Nav, Delivery)
    requires 0 <= c.after <= last <= sel.selected == |sel.items|
  {
    var nodes := NodesOfItems(sel.items[c.after..last]);
    var (l, frontiers) := Publish(naming, nav.ledger, nav.epoch, c.(after := last), sel.selected - last);
    (nav.(ledger := l, recalls := if last < sel.selected then nav.recalls else nav.recalls - {c.snapshotId},
          view := View(Merge(nav.view.nodes, nodes), frontiers)),
     Delivery(nodes, frontiers, sel.selected - last))
  }

  lemma ContinueCursorReads(naming: Naming, nav: Nav, c: Cursor)
    requires Fits(nav.recalls, c) && c.snapshotId in nav.recalls
    ensures var sel := nav.recalls[c.snapshotId];
            var read := ReadTo(naming, nav, c, sel, Min(c.after + c.pageSize, sel.selected));
            ContinueCursor(naming, nav, c) == (read.0, Ok(read.1))
  {
    PageIsSlice(nav.recalls[c.snapshotId], c.after, c.pageSize);
  }

  lemma FitsNew(l: Ledger, l1: Ledger, h: string, c: Cursor, recalls: map<string, Selection>)
    requires AllFit(l, recalls) && Fits(recalls, c)
    requires forall k :: CursorOf(l1, k) == if k == h then Some(c) else CursorOf(l, k)
    ensures AllFit(l1, recalls)
  {
  }

  lemma FitsFewer(l: Ledger, l1: Ledger, recalls: map<string, Selection>, fewer: map<string, Selection>)
    requires AllFit(l, recalls) && fewer.Keys <= recalls.Keys && (forall id :: id in fewer ==> fewer[id] == recalls[id])
    requires forall k :: CursorOf(l1, k).Some? ==> CursorOf(l1, k) == CursorOf(l, k)
    ensures AllFit(l1, fewer)
  {
    forall k | CursorOf(l1, k).Some?
      ensures Fits(fewer, CursorOf(l1, k).value)
    {
      assert Fits(recalls, CursorOf(l, k).value);
    }
  }

  /** A ledger in which the cursor has just been published for a selection nothing named. */
  ghost predicate NewlyRead(naming: Naming, nav: Nav, c: Cursor, l1: Ledger) {
    && MemorySound(naming, l1) && AllFit(l1, nav.recalls) && KeepsCursors(nav.ledger, l1)
    && (forall id :: HasCursor(l1, id) <==> HasCursor(nav.ledger, id) || id == c.snapshotId)
    && CursorStands(nav.(ledger := l1), |nav.ledger.frontiers|, c)
    && |nav.ledger.frontiers| <= |l1.frontiers| && l1.frontiers[..|nav.ledger.frontiers|] == nav.ledger.frontiers
  }

  lemma PublishFits(naming: Naming, nav: Nav, c: Cursor, remaining: nat)
    requires MemorySound(naming, nav.ledger) && !HasCursor(nav.ledger, c.snapshotId) && AllFit(nav.ledger, nav.recalls)
    requires c.snapshotId != "" && Fits(nav.recalls, c) && remaining > 0
    ensures var (l1, frontiers) := Publish(naming, nav.ledger, nav.epoch, c, remaining);
            NewlyRead(naming, nav, c, l1) && frontiers == [|nav.ledger.frontiers|]
  {
    PublishKeeps(naming, nav.ledger, nav.epoch, c, remaining);
    var l1 := Publish(naming, nav.ledger, nav.epoch, c, remaining).0;
    FitsNew(nav.ledger, l1, l1.frontiers[|nav.ledger.frontiers|].handle, c, nav.recalls);
  }

  /** Continuing a Memory Frontier keeps the session sound, whether or not its selection is still stored. */
  lemma StandingContinueSound(naming: Naming, nav: Nav, f: nat, c: Cursor)
    requires NavSound(naming, nav) && CursorStands(nav, f, c)
    ensures NavSound(naming, ContinueFrontier(naming, nav, f).0)
  {
    StandingMaterialises(naming, nav, f, c);
    ConsumedUnnames(naming, nav.ledger, f, c);
    assert Fits(nav.recalls, c);
    var nav0 := nav.(ledger := Consume(nav.ledger, f));
    FitsFewer(nav.ledger, nav0.ledger, nav.recalls, nav.recalls);
    if c.snapshotId in nav.recalls {
      ContinueCursorSound(naming, nav0, c);
    }
  }

  lemma ContinueCursorSound(naming: Naming, nav: Nav, c: Cursor)
    requires MemorySound(naming, nav.ledger) && !HasCursor(nav.ledger, c.snapshotId) && AllFit(nav.ledger, nav.recalls)
    requires c.snapshotId != "" && Fits(nav.recalls, c) && c.snapshotId in nav.recalls && c.snapshotId in nav.mine
    requires forall id :: id in nav.mine && id in nav.recalls && id != c.snapshotId ==> HasCursor(nav.ledger, id)
    requires forall id :: HasCursor(nav.ledger, id) ==> id in nav.mine
    requires forall id :: id in nav.mine ==> Strip(id) == id != ""
    ensures NavSound(naming, ContinueCursor(naming, nav, c).0)
  {
    var sel := nav.recalls[c.snapshotId];
    var last := Min(c.after + c.pageSize, sel.selected);
    ReadSound(naming, nav, c, sel, last);
    ContinueCursorReads(naming, nav, c);
  }

  lemma ReadSound(naming: Naming, nav: Nav, c: Cursor, sel: Selection, last: nat)
    requires MemorySound(naming, nav.ledger) && !HasCursor(nav.ledger, c.snapshotId) && AllFit(nav.ledger, nav.recalls)
    requires c.snapshotId != "" && Fits(nav.recalls, c) && c.snapshotId in nav.mine
    requires c.snapshotId in nav.recalls && nav.recalls[c.snapshotId] == sel && c.after <= last <= sel.selected
    requires forall id :: id in nav.mine && id in nav.recalls && id != c.snapshotId ==> HasCursor(nav.ledger, id)
    requires forall id :: HasCursor(nav.ledger, id) ==> id in nav.mine
    requires forall id :: id in nav.mine ==> Strip(id) == id != ""
    ensures NavSound(naming, ReadTo(naming, nav, c, sel, last).0)
  {
    if last < sel.selected {
      ReadMoreSound(naming, nav, c.(after := last), sel.selected - last, ReadTo(naming, nav, c, sel, last).0);
    } else {
      LastReadSound(naming, nav, c, ReadTo(naming, nav, c, sel, last).0);
    }
  }

  lemma ReadMoreSound(naming: Naming, nav: Nav, c: Cursor, rest: nat, nav1: Nav)
    requires MemorySound(naming, nav.ledger) && !HasCursor(nav.ledger, c.snapshotId) && AllFit(nav.ledger, nav.recalls)
    requires c.snapshotId != "" && Fits(nav.recalls, c) && c.snapshotId in nav.mine && rest > 0
    requires forall id :: id in nav.mine && id in nav.recalls && id != c.snapshotId ==> HasCursor(nav.ledger, id)
    requires forall id :: HasCursor(nav.ledger, id) ==> id in nav.mine
    requires forall id :: id in nav.mine ==> Strip(id) == id != ""
    requires nav1.ledger == Publish(naming, nav.ledger, nav.epoch, c, rest).0
    requires nav1.recalls == nav.recalls && nav1.mine == nav.mine
    ensures NavSound(naming, nav1)
  {
    PublishFits(naming, nav, c, rest);
    NewlyReadSound(naming, nav, c, nav1);
  }

  lemma LastReadSound(naming: Naming, nav: Nav, c: Cursor, nav1: Nav)
    requires MemorySound(naming, nav.ledger) && AllFit(nav.ledger, nav.recalls)
    requires nav1.ledger == nav.ledger && nav1.recalls == nav.recalls - {c.snapshotId} && nav1.mine == nav.mine
    requires forall id :: id in nav.mine && id in nav.recalls && id != c.snapshotId ==> HasCursor(nav.ledger, id)
    requires forall id :: HasCursor(nav.ledger, id) ==> id in nav.mine
    requires forall id :: id in nav.mine ==> Strip(id) == id != ""
    ensures NavSound(naming, nav1)
  {
    FitsFewer(nav.ledger, nav.ledger, nav.recalls, nav1.recalls);
  }

  lemma NewlyReadSound(naming: Naming, nav: Nav, c: Cursor, nav1: Nav)
    requires NewlyRead(naming, nav, c, nav1.ledger) && nav1.recalls == nav.recalls && nav1.mine == nav.mine
    requires c.snapshotId in nav.mine
    requires forall id :: id in nav.mine && id in nav.recalls && id != c.snapshotId ==> HasCursor(nav.ledger, id)
    requires forall id :: HasCursor(nav.ledger, id) ==> id in nav.mine
    requires forall id :: id in nav.mine ==> Strip(id) == id != ""
    ensures NavSound(naming, nav1)
  {
  }

  /** One continuation delivers the next slice of the selection with the exact rest, and either publishes the
      next cursor or removes the selection. */
  lemma ContinueDelivers(naming: Naming, nav: Nav, f: nat, c: Cursor, sel: Selection)
    requires NavSound(naming, nav) && CursorStands(nav, f, c)
    requires c.snapshotId in nav.recalls && nav.recalls[c.snapshotId] == sel
    ensures var (nav1, r) := ContinueFrontier(naming, nav, f);
            var last := Min(c.after + c.pageSize, sel.selected);
            && WellFormed(sel) && 0 <= c.after <= last
            && NavSound(naming, nav1) && r.Ok?
            && r.value.nodes == NodesOfItems(sel.items[c.after..last]) && r.value.remaining == sel.selected - last
            && nav1.view == View(Merge(nav.view.nodes, r.value.nodes), r.value.frontiers)
            && (r.value.frontiers == [] <==> last == sel.selected)
            && (last == sel.selected ==> c.snapshotId !in nav1.recalls)
            && (last < sel.selected ==>
                  && |r.value.frontiers| == 1 && CursorStands(nav1, r.value.frontiers[0], c.(after := last))
                  && c.snapshotId in nav1.recalls && nav1.recalls[c.snapshotId] == sel)
  {
    StandingContinueSound(naming, nav, f, c);
    StandingMaterialises(naming, nav, f, c);
    ConsumedUnnames(naming, nav.ledger, f, c);
    assert Fits(nav.recalls, c);
    var nav0 := nav.(ledger := Consume(nav.ledger, f));
    FitsFewer(nav.ledger, nav0.ledger, nav.recalls, nav.recalls);
    ContinueCursorReads(naming, nav0, c);
    var last := Min(c.after + c.pageSize, sel.selected);
    if last < sel.selected {
      PublishFits(naming, nav0, c.(after := last), sel.selected - last);
    }
  }

  /** A continuation consumes its own Frontier and touches no other; the one it publishes says how much remains, and
      no other selection changes. */
  lemma ContinueTouches(naming: Naming, nav: Nav, f: nat, c: Cursor)
    requires NavSound(naming, nav) && CursorStands(nav, f, c) && c.snapshotId in nav.recalls
    ensures var (nav1, n) := (ContinueFrontier(naming, nav, f).0, |nav.ledger.frontiers|);
            var sel := nav.recalls[c.snapshotId];
            && nav1.epoch == nav.epoch && n <= |nav1.ledger.frontiers|
            && nav1.ledger.frontiers[..n] == nav.ledger.frontiers[f := nav.ledger.frontiers[f].(status := Consumed)]
            && (c.after + c.pageSize >= sel.selected
                ==> |nav1.ledger.frontiers| == n && nav1.recalls == nav.recalls - {c.snapshotId})
            && (c.after + c.pageSize < sel.selected
                ==> |nav1.ledger.frontiers| == n + 1 && nav1.recalls == nav.recalls
                    && nav1.ledger.frontiers[n].count == sel.selected - c.after - c.pageSize)
  {
    StandingMaterialises(naming, nav, f, c);
    ConsumedUnnames(naming, nav.ledger, f, c);
    assert Fits(nav.recalls, c);
    var nav0 := nav.(ledger := Consume(nav.ledger, f));
    ContinueCursorReads(naming, nav0, c);
    var sel := nav.recalls[c.snapshotId];
    if c.after + c.pageSize < sel.selected {
      var next := c.(after := c.after + c.pageSize);
      PublishAdds(naming, nav0.ledger, nav.epoch, next, sel.selected - c.after - c.pageSize);
    }
  }

  /** When the selection is gone the continuation is refused, yet its Frontier is consumed. */
  lemma LostSelectionIsRefused(naming: Naming, nav: Nav, f: nat, c: Cursor)
    requires NavSound(naming, nav) && CursorStands(nav, f, c) && c.snapshotId !in nav.recalls
    ensures var (nav1, r) := ContinueFrontier(naming, nav, f);
            && r == Err(RecallNotFound) && nav1.recalls == nav.recalls && nav1.view == nav.view
            && nav1.ledger.frontiers == nav.ledger.frontiers[f := nav.ledger.frontiers[f].(status := Consumed)]
  {
    StandingMaterialises(naming, nav, f, c);
  }

  // ---- the other operations of a session -------------------------------------------------

  lemma ExposeKeeps(naming: Naming, l: Ledger, handle: string, epoch: nat, source: string, count: nat, reason: string)
    requires MemorySound(naming, l) && handle in l.handles && l.handles[handle].epoch == epoch
    requires CursorOf(l, handle).None? && source != CORE_MEMORY
    ensures var l1 := Expose(l, handle, epoch, source, count, reason).0;
            && MemorySound(naming, l1) && SameCursors(l, l1)
            && |l.frontiers| <= |l1.frontiers| && l1.frontiers[..|l.frontiers|] == l.frontiers
  {
    ExposeSound(naming, l, handle, epoch, source, count, reason);
    var (l1, f) := Expose(l, handle, epoch, source, count, reason);
    assert SameCursors(l, l1);
    assert forall h, id :: Names(l1, h, id) <==> Names(l, h, id);
    forall g: nat | IsOpen(l1, g)
      ensures OnMemory(l1, g) <==> CursorOf(l1, l1.frontiers[g].handle).Some?
    {
      assert g < |l.frontiers| ==> IsOpen(l, g) && l1.frontiers[g] == l.frontiers[g];
    }
  }

  /** A generic continuation of a Frontier that is not Memory's leaves all cursors alone. */
  ghost predicate Aside(naming: Naming, l: Ledger, l1: Ledger, f: nat) {
    && MemorySound(naming, l1) && SameCursors(l, l1) && |l.frontiers| <= |l1.frontiers|
    && forall g: nat :: g != f && g < |l.frontiers| ==> l1.frontiers[g] == l.frontiers[g]
  }

  lemma GenericMaterialise(naming: Naming, l: Ledger, epoch: nat, f: nat)
    requires MemorySound(naming, l) && IsOpen(l, f)
    ensures var (l1, page) := Materialise(naming, l, l.frontiers[f].handle, epoch);
            && MemorySound(naming, l1) && SameCursors(l, l1) && l1.frontiers == l.frontiers
            && (page.Ok? && page.value.next.Some? ==>
                  && CursorOf(l1, page.value.next.value).None?
                  && page.value.next.value in l1.handles && page.value.next.value != l.frontiers[f].handle
                  && l1.handles[page.value.next.value].epoch == epoch)
  {
    MaterialiseSound(naming, l, l.frontiers[f].handle, epoch);
    MaterialiseCursors(naming, l, l.frontiers[f].handle, epoch);
    SameCursorsKeep(naming, l, Materialise(naming, l, l.frontiers[f].handle, epoch).0);
  }

  lemma GenericConsume(naming: Naming, l: Ledger, epoch: nat, f: nat)
    requires MemorySound(naming, l) && IsOpen(l, f) && !OnMemory(l, f)
    ensures var (l1, page) := Materialise(naming, l, l.frontiers[f].handle, epoch);
            var l2 := Consume(l1, f);
            && Aside(naming, l, l2, f)
            && (page.Ok? && page.value.next.Some? ==>
                  && CursorOf(l2, page.value.next.value).None?
                  && page.value.next.value in l2.handles && l2.handles[page.value.next.value].epoch == epoch)
  {
    GenericMaterialise(naming, l, epoch, f);
    var l1 := Materialise(naming, l, l.frontiers[f].handle, epoch).0;
    ConsumeKeeps(naming, l1, f);
    assert CursorOf(l1, l.frontiers[f].handle).None?;
  }

  lemma GenericContinue(naming: Naming, l: Ledger, epoch: nat, f: nat)
    requires MemorySound(naming, l) && !OnMemory(l, f)
    ensures Aside(naming, l, ContinueObservation(naming, l, epoch, f, false), f)
  {
    if Resolve(l, f, epoch).Ok? {
      GenericConsume(naming, l, epoch, f);
      var (l1, page) := Materialise(naming, l, l.frontiers[f].handle, epoch);
      if page.Ok? && page.value.next.Some? {
        ExposeKeeps(naming, Consume(l1, f), page.value.next.value, epoch, CONTINUE_OBSERVATION, page.value.Remaining(),
                    "continuation");
      }
    }
  }

  lemma RejectKeepsMemory(naming: Naming, l: Ledger, epoch: nat, f: nat, reason: string)
    requires MemorySound(naming, l) && IsOpen(l, f) && !OnMemory(l, f) && !NextIsShared(naming, l, f, epoch)
    requires Materialise(naming, l, l.frontiers[f].handle, epoch).1.Ok?
    ensures Aside(naming, l, Reject(naming, l, f, epoch, reason), f)
  {
    RejectKeeps(naming, l, f, epoch, reason);
    RejectCursors(naming, l, epoch, f, reason);
    SameCursorsKeep(naming, l, Reject(naming, l, f, epoch, reason));
  }

  lemma GenericReject(naming: Naming, l: Ledger, epoch: nat, f: nat)
    requires MemorySound(naming, l) && !OnMemory(l, f) && (IsOpen(l, f) ==> !NextIsShared(naming, l, f, epoch))
    ensures Aside(naming, l, ContinueObservation(naming, l, epoch, f, true), f)
  {
    if Resolve(l, f, epoch).Ok? && Materialise(naming, l, l.frontiers[f].handle, epoch).1.Ok? {
      RejectKeepsMemory(naming, l, epoch, f, "source_revision_changed");
    }
  }

  lemma RejectCursors(naming: Naming, l: Ledger, epoch: nat, f: nat, reason: string)
    requires MemorySound(naming, l) && IsOpen(l, f) && !OnMemory(l, f) && !NextIsShared(naming, l, f, epoch)
    requires Materialise(naming, l, l.frontiers[f].handle, epoch).1.Ok?
    ensures var l1 := Reject(naming, l, f, epoch, reason);
            SameCursors(l, l1) && AllShaped(l1)
  {
    GenericMaterialise(naming, l, epoch, f);
    var (l1, page) := Materialise(naming, l, l.frontiers[f].handle, epoch);
    var l2 := l1;
    if page.value.next.Some? {
      l2 := Release(l1, page.value.next.value);
      ReleaseCursors(naming, l1, page.value.next.value);
      NextNotHeld(naming, l, f, epoch);
      ReleaseSound(naming, l1, page.value.next.value);
    }
    CloseCursors(naming, l2, f, l2.frontiers[f].(status := Stale, staleReason := Some(reason)));
  }

  // ---- every run of a session ------------------------------------------------------------

  datatype NavAction =
    | Activates(id: string, created: Selection, pageSize: int, selector: Json, selection: Json)
    | Continues(written: string, revised: bool)
    | Registers(kind: string, payload: Json, source: string, description: string, pageSize: int, offset: int)
    | Exposes(handle: string, source: string, count: nat, reason: string)
    | AdvancesEpoch
    | OthersChange(recalls: map<string, Selection>)

  /** The id leads to a Memory Frontier without being its stored id. */
  predicate AliasOfMemory(l: Ledger, written: string) {
    && Position(|l.frontiers|, written).None?
    && Canonical(|l.frontiers|, written).Some? && OnMemory(l, Canonical(|l.frontiers|, written).value)
  }

  /** No provider reports a changed source for Memory, nor refuses a page whose next handle another open Frontier
      holds. */
  ghost predicate ProviderRespects(naming: Naming, nav: Nav, written: string, revised: bool) {
    var f := Canonical(|nav.ledger.frontiers|, written);
    revised && f.Some? ==> !OnMemory(nav.ledger, f.value)
                           && (IsOpen(nav.ledger, f.value) ==> !NextIsShared(naming, nav.ledger, f.value, nav.epoch))
  }

  /** What the runtime around the navigation respects: fresh recall ids; no other capability stores a
      "memory_cursor" member or publishes a cursor; other sessions and the orphan collector may remove a
      selection of this session but not alter it. */
  ghost predicate Respects(naming: Naming, nav: Nav, a: NavAction) {
    match a
    case Activates(id, created, _, _, _) =>
      id !in nav.mine && id !in nav.recalls && Strip(id) == id != "" && WellFormed(created)
    case Continues(written, revised) =>
      !AliasOfMemory(nav.ledger, written) && ProviderRespects(naming, nav, written, revised)
    case Registers(_, payload, _, _, _, _) =>
      !payload.Has("memory_cursor")
    case Exposes(handle, source, _, _) =>
      && handle in nav.ledger.handles && nav.ledger.handles[handle].epoch == nav.epoch
      && CursorOf(nav.ledger, handle).None? && source != CORE_MEMORY
    case OthersChange(recalls) =>
      forall id :: id in nav.mine && id in recalls ==> id in nav.recalls && recalls[id] == nav.recalls[id]
    case AdvancesEpoch => true
  }

  function PerformNav(naming: Naming, nav: Nav, a: NavAction): Nav {
    match a
    case Activates(id, created, pageSize, selector, selection) =>
      Activate(naming, nav, id, created, pageSize, selector, selection).0
    case Continues(written, revised) => Dispatch(naming, nav, written, revised)
    case Registers(kind, payload, source, description, pageSize, offset) =>
      nav.(ledger := RegisterSnapshot(naming, nav.ledger, kind, payload, nav.epoch, source, description, pageSize,
                                      offset).0)
    case Exposes(handle, source, count, reason) =>
      nav.(ledger := Expose(nav.ledger, handle, nav.epoch, source, count, reason).0)
    case AdvancesEpoch => nav.(epoch := nav.epoch + 1)
    case OthersChange(recalls) => nav.(recalls := recalls)
  }

  lemma SameNamed(l: Ledger, l1: Ledger)
    requires SameCursors(l, l1)
    ensures forall id :: HasCursor(l1, id) <==> HasCursor(l, id)
  {
    assert forall h, id :: Names(l1, h, id) <==> Names(l, h, id);
  }

  lemma SameCursorsSound(naming: Naming, nav: Nav, l1: Ledger)
    requires NavSound(naming, nav) && MemorySound(naming, l1) && SameCursors(nav.ledger, l1)
    ensures NavSound(naming, nav.(ledger := l1))
  {
    SameNamed(nav.ledger, l1);
    FitsFewer(nav.ledger, l1, nav.recalls, nav.recalls);
  }

  lemma RegistersSound(naming: Naming, nav: Nav, kind: string, payload: Json, source: string, description: string,
                       pageSize: int, offset: int)
    requires NavSound(naming, nav) && !payload.Has("memory_cursor")
    ensures var l1 := RegisterSnapshot(naming, nav.ledger, kind, payload, nav.epoch, source, description, pageSize,
                                       offset).0;
            NavSound(naming, nav.(ledger := l1)) && SameCursors(nav.ledger, l1) && l1.frontiers == nav.ledger.frontiers
  {
    var l := nav.ledger;
    RegisterSnapshotSound(naming, l, kind, payload, nav.epoch, source, description, pageSize, offset);
    RegisterCursors(naming, l, kind, payload, nav.epoch, source, description, pageSize, offset);
    var (l1, handle) := RegisterSnapshot(naming, l, kind, payload, nav.epoch, source, description, pageSize, offset);
    assert CursorOf(l, handle).None? by {
      RegisteredUnderOwnPayload(naming, l, kind, payload, nav.epoch, source, description, pageSize, offset);
    }
    SameCursorsKeep(naming, l, l1);
    SameCursorsSound(naming, nav, l1);
  }

  /** A handle that registering finds already there stood over the same payload. */
  lemma RegisteredUnderOwnPayload(naming: Naming, l: Ledger, kind: string, payload: Json, epoch: nat, source: string,
                                  description: string, pageSize: int, offset: int)
    requires Distinct(naming) && Sound(naming, l)
    ensures var (l1, id) := RegisterSnapshot(naming, l, kind, payload, epoch, source, description, pageSize, offset);
            CursorOf(l, id).Some? ==> CursorOf(l, id) == CursorIn(payload)
  {
    var (l1, id) := RegisterSnapshot(naming, l, kind, payload, epoch, source, description, pageSize, offset);
    if id in l.handles {
      assert HandleSound(naming, l, id);
      assert HandleKeyOf(l.handles[id]) == HandleKeyOf(l1.handles[id]);
      assert SnapshotSound(naming, l, l.handles[id].snapshotId);
    }
  }

  lemma ActivateReads(naming: Naming, nav: Nav, id: string, created: Selection, pageSize: int, selector: Json,
                      selection: Json)
    requires WellFormed(created)
    ensures var c := Cursor(id, 0, Max(1, pageSize), selector, selection);
            var last := Min(Max(1, pageSize), created.selected);
            var nodes := NodesOfItems(created.items[..last]);
            var (l, frontiers) := Publish(naming, nav.ledger, nav.epoch, c.(after := last), created.selected - last);
            Activate(naming, nav, id, created, pageSize, selector, selection)
            == (Nav(l, nav.epoch, if last < created.selected then nav.recalls[id := created] else nav.recalls - {id},
                    View(nodes, frontiers), nav.mine + {id}),
                Delivery(nodes, frontiers, created.selected - last))
  {
    PageIsSlice(created, 0, Max(1, pageSize));
    assert created.items[0..Min(Max(1, pageSize), created.selected)]
           == created.items[..Min(Max(1, pageSize), created.selected)];
  }

  lemma FitsMore(l: Ledger, recalls: map<string, Selection>, id: string, created: Selection)
    requires AllFit(l, recalls) && !HasCursor(l, id)
    ensures AllFit(l, recalls[id := created])
  {
    forall k | CursorOf(l, k).Some?
      ensures Fits(recalls[id := created], CursorOf(l, k).value)
    {
      assert Names(l, k, CursorOf(l, k).value.snapshotId);
      assert Fits(recalls, CursorOf(l, k).value);
    }
  }

  /** The session after an activation with more to come: one new Frontier reads from the cursor. */
  ghost predicate Begun(naming: Naming, nav: Nav, nav1: Nav, c: Cursor) {
    && NavSound(naming, nav1) && CursorStands(nav1, |nav.ledger.frontiers|, c) && KeepsCursors(nav.ledger, nav1.ledger)
    && |nav.ledger.frontiers| <= |nav1.ledger.frontiers|
    && nav1.ledger.frontiers[..|nav.ledger.frontiers|] == nav.ledger.frontiers
  }

  lemma ActivateMore(naming: Naming, nav: Nav, nav1: Nav, frontiers: seq<nat>, c: Cursor, created: Selection, rest: nat)
    requires NavSound(naming, nav) && c.snapshotId !in nav.mine && c.snapshotId !in nav.recalls
    requires Strip(c.snapshotId) == c.snapshotId != "" && rest > 0
    requires WellFormed(created) && c.pageSize >= 1 && 0 <= c.after <= created.selected
    requires (nav1.ledger, frontiers) == Publish(naming, nav.ledger, nav.epoch, c, rest) && nav1.epoch == nav.epoch
    requires nav1.recalls == nav.recalls[c.snapshotId := created] && nav1.mine == nav.mine + {c.snapshotId}
    ensures Begun(naming, nav, nav1, c) && frontiers == [|nav.ledger.frontiers|]
  {
    FitsMore(nav.ledger, nav.recalls, c.snapshotId, created);
    PublishFits(naming, nav.(recalls := nav1.recalls), c, rest);
    BegunSound(naming, nav, nav1, c, created);
  }

  lemma BegunSound(naming: Naming, nav: Nav, nav1: Nav, c: Cursor, created: Selection)
    requires NavSound(naming, nav) && Strip(c.snapshotId) == c.snapshotId != "" && nav1.epoch == nav.epoch
    requires nav1.recalls == nav.recalls[c.snapshotId := created] && nav1.mine == nav.mine + {c.snapshotId}
    requires NewlyRead(naming, nav.(recalls := nav1.recalls), c, nav1.ledger)
    ensures Begun(naming, nav, nav1, c)
  {
  }

  /** An activation leaves the rest of its selection behind one standing Frontier, or nothing at all. */
  lemma ActivateDelivers(naming: Naming, nav: Nav, id: string, created: Selection, pageSize: int, selector: Json,
                         selection: Json)
    requires NavSound(naming, nav) && id !in nav.mine && id !in nav.recalls && Strip(id) == id != ""
    requires WellFormed(created)
    ensures var (nav1, delivery) := Activate(naming, nav, id, created, pageSize, selector, selection);
            var last := Min(Max(1, pageSize), created.selected);
            && delivery.nodes == NodesOfItems(created.items[..last]) && delivery.remaining == created.selected - last
            && nav1.view == View(delivery.nodes, delivery.frontiers) && nav1.epoch == nav.epoch
            && (delivery.frontiers == [] <==> last == created.selected)
            && (last == created.selected ==> NavSound(naming, nav1) && nav1.recalls == nav.recalls
                                             && nav1.ledger == nav.ledger)
            && (last < created.selected ==>
                  && delivery.frontiers == [|nav.ledger.frontiers|] && nav1.recalls == nav.recalls[id := created]
                  && Begun(naming, nav, nav1, Cursor(id, last, Max(1, pageSize), selector, selection)))
  {
    ActivateReads(naming, nav, id, created, pageSize, selector, selection);
    var last := Min(Max(1, pageSize), created.selected);
    var (nav1, delivery) := Activate(naming, nav, id, created, pageSize, selector, selection);
    if last < created.selected {
      ActivateMore(naming, nav, nav1, delivery.frontiers, Cursor(id, last, Max(1, pageSize), selector, selection),
                   created,
                   created.selected - last);
    } else {
      assert nav.recalls - {id} == nav.recalls;
    }
  }

  /** Where an id as written leads. */
  lemma DispatchLeads(naming: Naming, nav: Nav, written: string, revised: bool)
    ensures var f := Canonical(|nav.ledger.frontiers|, written);
            Dispatch(naming, nav, written, revised)
            == if f.None? then nav
               else if OnMemory(nav.ledger, f.value) && !AliasOfMemory(nav.ledger, written)
               then ContinueFrontier(naming, nav, f.value).0
               else nav.(ledger := ContinueObservation(naming, nav.ledger, nav.epoch, f.value, revised))
  {
    var count := |nav.ledger.frontiers|;
    if Position(count, written).Some? {
      PositionIsExact(count, written, Position(count, written).value);
      StoredLeadsHome(count, Position(count, written).value);
    }
  }

  /** Continuing a Frontier keeps the session sound, on the Memory route and on the generic one. */
  lemma ContinuesSound(naming: Naming, nav: Nav, written: string, revised: bool)
    requires NavSound(naming, nav) && Respects(naming, nav, Continues(written, revised))
    ensures NavSound(naming, Dispatch(naming, nav, written, revised))
  {
    DispatchLeads(naming, nav, written, revised);
    var canonical := Canonical(|nav.ledger.frontiers|, written);
    if canonical.Some? {
      if OnMemory(nav.ledger, canonical.value) {
        MemoryRouteSound(naming, nav, canonical.value);
      } else {
        GenericRouteSound(naming, nav, canonical.value, revised);
      }
    }
  }

  lemma MemoryRouteSound(naming: Naming, nav: Nav, f: nat)
    requires NavSound(naming, nav) && OnMemory(nav.ledger, f)
    ensures NavSound(naming, ContinueFrontier(naming, nav, f).0)
  {
    if Resolve(nav.ledger, f, nav.epoch).Ok? {
      StandingContinueSound(naming, nav, f, CursorOf(nav.ledger, nav.ledger.frontiers[f].handle).value);
    }
  }

  lemma GenericRouteSound(naming: Naming, nav: Nav, f: nat, revised: bool)
    requires NavSound(naming, nav) && !OnMemory(nav.ledger, f)
    requires revised && IsOpen(nav.ledger, f) ==> !NextIsShared(naming, nav.ledger, f, nav.epoch)
    ensures NavSound(naming, nav.(ledger := ContinueObservation(naming, nav.ledger, nav.epoch, f, revised)))
  {
    if revised {
      GenericReject(naming, nav.ledger, nav.epoch, f);
    } else {
      GenericContinue(naming, nav.ledger, nav.epoch, f);
    }
    SameCursorsSound(naming, nav, ContinueObservation(naming, nav.ledger, nav.epoch, f, revised));
  }

  lemma NavActionSound(naming: Naming, nav: Nav, a: NavAction)
    requires NavSound(naming, nav) && Respects(naming, nav, a)
    ensures NavSound(naming, PerformNav(naming, nav, a))
  {
    match a
    case Activates(id, created, pageSize, selector, selection) =>
      ActivateDelivers(naming, nav, id, created, pageSize, selector, selection);
    case Continues(written, revised) =>
      ContinuesSound(naming, nav, written, revised);
    case Registers(kind, payload, source, description, pageSize, offset) =>
      RegistersSound(naming, nav, kind, payload, source, description, pageSize, offset);
    case Exposes(handle, source, count, reason) =>
      ExposeKeeps(naming, nav.ledger, handle, nav.epoch, source, count, reason);
      SameCursorsSound(naming, nav, Expose(nav.ledger, handle, nav.epoch, source, count, reason).0);
    case AdvancesEpoch =>
    case OthersChange(recalls) =>
      OthersChangeFits(nav, recalls);
  }

  lemma OthersChangeFits(nav: Nav, recalls: map<string, Selection>)
    requires AllFit(nav.ledger, nav.recalls) && (forall id :: HasCursor(nav.ledger, id) ==> id in nav.mine)
    requires forall id :: id in nav.mine && id in recalls ==> id in nav.recalls && recalls[id] == nav.recalls[id]
    ensures AllFit(nav.ledger, recalls)
  {
    forall k | CursorOf(nav.ledger, k).Some?
      ensures Fits(recalls, CursorOf(nav.ledger, k).value)
    {
      assert Names(nav.ledger, k, CursorOf(nav.ledger, k).value.snapshotId);
      assert Fits(nav.recalls, CursorOf(nav.ledger, k).value);
    }
  }

  ghost predicate IsNavRun(naming: Naming, navs: seq<Nav>, actions: seq<NavAction>) {
    && |navs| == |actions| + 1
    && forall i :: 0 <= i < |actions| ==> Respects(naming, navs[i], actions[i])
                                          && navs[i + 1] == PerformNav(naming, navs[i], actions[i])
  }

  /** A session before its first operation, whatever other sessions have stored. */
  function FreshSession(recalls: map<string, Selection>): Nav {
    Nav(EMPTY_LEDGER, 0, recalls, View([], []), {})
  }

  lemma FreshSessionSound(naming: Naming, recalls: map<string, Selection>)
    requires Distinct(naming)
    ensures NavSound(naming, FreshSession(recalls))
  {
    assert forall f: nat :: !IsOpen(EMPTY_LEDGER, f);
    assert forall h :: CursorOf(EMPTY_LEDGER, h) == None;
    assert forall h, id :: !Names(EMPTY_LEDGER, h, id);
  }

  lemma {:induction false} NavRunSound(naming: Naming, navs: seq<Nav>, actions: seq<NavAction>, n: nat)
    requires IsNavRun(naming, navs, actions) && NavSound(naming, navs[0]) && n < |navs|
    ensures NavSound(naming, navs[n])
  {
    if n > 0 {
      NavRunSound(naming, navs, actions, n - 1);
      NavActionSound(naming, navs[n - 1], actions[n - 1]);
    }
  }

  /** Throughout every run of a session from its beginning, each live selection of the session is named by exactly one
      cursor of its ledger, and cursors name nothing else. */
  lemma SessionRunSound(naming: Naming, recalls: map<string, Selection>, navs: seq<Nav>, actions: seq<NavAction>,
                        n: nat)
    requires Distinct(naming) && IsNavRun(naming, navs, actions) && navs[0] == FreshSession(recalls) && n < |navs|
    ensures NavSound(naming, navs[n])
  {
    FreshSessionSound(naming, recalls);
    NavRunSound(naming, navs, actions, n);
  }

  /** At the end of the logical task no selection of the session is left, and nobody else's is touched. */
  lemma ReleaseLeavesNothing(naming: Naming, nav: Nav)
    requires NavSound(naming, nav)
    ensures var released := ReleaseNavigation(nav);
            forall id :: id in released.recalls <==> id in nav.recalls && id !in nav.mine
  {
    forall id
      ensures id in nav.recalls ==> (id in CursorIds(nav.ledger) <==> id in nav.mine)
    {
      if id in nav.recalls && id in nav.mine {
        var h :| Names(nav.ledger, h, id);
        var s := nav.ledger.handles[h].snapshotId;
        assert Strip(CursorIn(nav.ledger.snapshots[s].payload).value.snapshotId) == id;
      }
      if id in CursorIds(nav.ledger) {
        CursorIdsAreMine(naming, nav, id);
      }
    }
  }

  lemma CursorIdsAreMine(naming: Naming, nav: Nav, id: string)
    requires NavSound(naming, nav) && id in CursorIds(nav.ledger)
    ensures id in nav.mine
  {
    var s :| s in nav.ledger.snapshots && CursorIn(nav.ledger.snapshots[s].payload).Some?
             && Strip(CursorIn(nav.ledger.snapshots[s].payload).value.snapshotId) == id;
    assert SnapshotSound(naming, nav.ledger, s);
    var h :| h in nav.ledger.handles && nav.ledger.handles[h].snapshotId == s;
    assert Names(nav.ledger, h, CursorOf(nav.ledger, h).value.snapshotId);
  }

  // ---- a Frontier written as an alias ----------------------------------------------------

  /** Written as stored, a Memory Frontier is always continued by Memory. Written as an alias it reaches the generic
      continuation, which consumes it; a selection still stored is then left without any cursor. This is the one
      way a continuation can strand a selection. */
  lemma DispatchSoundIff(naming: Naming, nav: Nav, written: string, revised: bool)
    requires NavSound(naming, nav) && ProviderRespects(naming, nav, written, revised)
    ensures NavSound(naming, Dispatch(naming, nav, written, revised))
            <==> !(AliasOfMemory(nav.ledger, written)
                   && Strandable(nav, Canonical(|nav.ledger.frontiers|, written).value))
  {
    if AliasOfMemory(nav.ledger, written) {
      DispatchLeads(naming, nav, written, revised);
      AliasStrands(naming, nav, Canonical(|nav.ledger.frontiers|, written).value);
    } else {
      ContinuesSound(naming, nav, written, revised);
    }
  }

  /** An open Frontier of this epoch whose selection is still stored. */
  predicate Strandable(nav: Nav, f: nat) {
    && Resolve(nav.ledger, f, nav.epoch).Ok?
    && CursorOf(nav.ledger, nav.ledger.frontiers[f].handle).Some?
    && CursorOf(nav.ledger, nav.ledger.frontiers[f].handle).value.snapshotId in nav.recalls
  }

  lemma GenericConsumesMemory(naming: Naming, nav: Nav, f: nat)
    requires NavSound(naming, nav) && OnMemory(nav.ledger, f) && Resolve(nav.ledger, f, nav.epoch).Ok?
    ensures ContinueObservation(naming, nav.ledger, nav.epoch, f, false) == Consume(nav.ledger, f)
  {
    ResolvedMaterialises(naming, nav.ledger, f, nav.epoch);
    MaterialiseCursors(naming, nav.ledger, nav.ledger.frontiers[f].handle, nav.epoch);
  }

  lemma AliasStrands(naming: Naming, nav: Nav, f: nat)
    requires NavSound(naming, nav) && OnMemory(nav.ledger, f)
    ensures NavSound(naming, nav.(ledger := ContinueObservation(naming, nav.ledger, nav.epoch, f, false)))
            <==> !Strandable(nav, f)
  {
    if Resolve(nav.ledger, f, nav.epoch).Ok? {
      GenericConsumesMemory(naming, nav, f);
      ConsumeStrands(naming, nav, f);
    }
  }

  lemma ConsumeStrands(naming: Naming, nav: Nav, f: nat)
    requires NavSound(naming, nav) && OnMemory(nav.ledger, f) && Resolve(nav.ledger, f, nav.epoch).Ok?
    ensures NavSound(naming, nav.(ledger := Consume(nav.ledger, f))) <==> !Strandable(nav, f)
  {
    var c := CursorOf(nav.ledger, nav.ledger.frontiers[f].handle).value;
    ConsumedUnnames(naming, nav.ledger, f, c);
    FitsFewer(nav.ledger, Consume(nav.ledger, f), nav.recalls, nav.recalls);
    assert c.snapshotId in nav.mine && !HasCursor(Consume(nav.ledger, f), c.snapshotId);
  }

  ghost predicate Strands(naming: Naming, nav: Nav, written: string) {
    && AliasOfMemory(nav.ledger, written) && Strandable(nav, Canonical(|nav.ledger.frontiers|, written).value)
    && !NavSound(naming, Dispatch(naming, nav, written, false))
  }

  /** The failing case is reached by every session whose first activation leaves a remainder: its Frontier answers to
      an alias, and continuing that strands the selection. */
  lemma AliasCanStrand(naming: Naming, recalls: map<string, Selection>, a: NavAction)
    requires Distinct(naming) && a.Activates? && Respects(naming, FreshSession(recalls), a)
    requires Max(1, a.pageSize) < a.created.selected
    ensures var nav := PerformNav(naming, FreshSession(recalls), a);
            && IsNavRun(naming, [FreshSession(recalls), nav], [a]) && NavSound(naming, nav)
            && exists written :: Strands(naming, nav, written)
  {
    var nav0 := FreshSession(recalls);
    FreshSessionSound(naming, recalls);
    ActivateDelivers(naming, nav0, a.id, a.created, a.pageSize, a.selector, a.selection);
    var c := Cursor(a.id, Max(1, a.pageSize), Max(1, a.pageSize), a.selector, a.selection);
    StandingHasAlias(naming, PerformNav(naming, nav0, a), 0, c);
  }

  /** Any standing Frontier of a stored selection answers to an alias that strands it. */
  lemma StandingHasAlias(naming: Naming, nav: Nav, f: nat, c: Cursor)
    requires NavSound(naming, nav) && CursorStands(nav, f, c) && c.snapshotId in nav.recalls
    ensures exists written :: Strands(naming, nav, written)
  {
    var count := |nav.ledger.frontiers|;
    AliasExists(count, f);
    var written :| Canonical(count, written) == Some(f) && written != FrontierId(f) && Position(count, written).None?;
    StandsStrandable(naming, nav, f, c);
    DispatchSoundIff(naming, nav, written, false);
    assert Strands(naming, nav, written);
  }

  lemma StandsStrandable(naming: Naming, nav: Nav, f: nat, c: Cursor)
    requires NavSound(naming, nav) && CursorStands(nav, f, c) && c.snapshotId in nav.recalls
    ensures OnMemory(nav.ledger, f) && Strandable(nav, f)
  {
    assert HandleSound(naming, nav.ledger, nav.ledger.frontiers[f].handle);
    assert CursorOf(nav.ledger, nav.ledger.frontiers[f].handle) == Some(c);
  }
}
