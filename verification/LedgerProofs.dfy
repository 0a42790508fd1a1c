/** What every disciplined use of the ledger keeps, and what draining a Frontier delivers. */
module LedgerProofs {
  import opened Prelude
  import opened JsonValue
  import opened Ledger

  /** Ids are injective in their identity, and never blank. */
  ghost predicate Distinct(naming: Naming) {
    && (forall a :: naming.snapshotOf(naming.snapshot(a)) == a)
    && (forall a :: naming.handleOf(naming.handle(a)) == a)
    && (forall a :: naming.handle(a) != "")
  }

  /** A handle is filed under its own id, and its snapshot is stored at the same epoch. */
  predicate HandleSound(naming: Naming, l: Ledger, id: string)
    requires id in l.handles
  {
    var h := l.handles[id];
    && id == naming.handle(HandleKeyOf(h))
    && h.pageSize >= 1
    && h.snapshotId in l.snapshots && l.snapshots[h.snapshotId].epoch == h.epoch
  }

  predicate Referenced(handles: map<string, Handle>, snapshotId: string) {
    exists h :: h in handles && handles[h].snapshotId == snapshotId
  }

  /** A snapshot is filed under its own id, and some handle names it. */
  predicate SnapshotSound(naming: Naming, l: Ledger, id: string)
    requires id in l.snapshots
  {
    id == naming.snapshot(SnapshotKeyOf(l.snapshots[id])) && Referenced(l.handles, id)
  }

  /** The ids named by handles are exactly the stored snapshots; open Frontiers hold distinct live handles. */
  ghost predicate Sound(naming: Naming, l: Ledger) {
    Filed(naming, l) && OpenDistinct(l) && OpenLive(l)
  }

  ghost predicate Filed(naming: Naming, l: Ledger) {
    && (forall id {:trigger HandleSound(naming, l, id)} :: id in l.handles ==> HandleSound(naming, l, id))
    && (forall id {:trigger SnapshotSound(naming, l, id)} :: id in l.snapshots ==> SnapshotSound(naming, l, id))
  }

  ghost predicate OpenDistinct(l: Ledger) {
    forall f: nat, g: nat :: IsOpen(l, f) && IsOpen(l, g) && f != g ==> l.frontiers[f].handle != l.frontiers[g].handle
  }

  ghost predicate OpenLive(l: Ledger) {
    forall f: nat :: IsOpen(l, f) ==> l.frontiers[f].handle in l.handles
  }

  /** Every open Frontier was published at the epoch of its handle. */
  ghost predicate Aligned(l: Ledger) {
    forall f: nat :: IsOpen(l, f) && l.frontiers[f].handle in l.handles
                ==> l.frontiers[f].epoch == l.handles[l.frontiers[f].handle].epoch
  }

  // ---- each operation --------------------------------------------------------------------

  /** Registering a handle on a stored snapshot never changes what an existing handle names. */
  lemma RegisterHandleSound(naming: Naming, l: Ledger, h: Handle)
    requires Distinct(naming) && Sound(naming, l)
    requires h.pageSize >= 1 && h.snapshotId in l.snapshots && l.snapshots[h.snapshotId].epoch == h.epoch
    ensures Sound(naming, RegisterHandle(naming, l, h).0)
    ensures Aligned(l) ==> Aligned(RegisterHandle(naming, l, h).0)
  {
    var (l1, id) := RegisterHandle(naming, l, h);
    if id in l.handles {
      assert HandleSound(naming, l, id);
      assert HandleKeyOf(l.handles[id]) == HandleKeyOf(h);
    }
    forall x | x in l1.handles
      ensures HandleSound(naming, l1, x)
    {
      assert x != id ==> HandleSound(naming, l, x);
    }
    forall s | s in l1.snapshots
      ensures SnapshotSound(naming, l1, s)
    {
      assert SnapshotSound(naming, l, s);
      var x :| x in l.handles && l.handles[x].snapshotId == s;
      assert l1.handles[x].snapshotId == s;
    }
    assert forall f: nat :: IsOpen(l1, f) <==> IsOpen(l, f);
  }

  lemma RegisterSnapshotSound(naming: Naming, l: Ledger, kind: string, payload: Json, epoch: nat, source: string,
                              description: string, pageSize: int, offset: int)
    requires Distinct(naming) && Sound(naming, l)
    ensures var r := RegisterSnapshot(naming, l, kind, payload, epoch, source, description, pageSize, offset);
            && Sound(naming, r.0) && r.1 in r.0.handles && r.0.frontiers == l.frontiers
            && r.0.handles[r.1].epoch == epoch && (Aligned(l) ==> Aligned(r.0))
  {
    var name := if Strip(kind) == "" then "continuation" else Strip(kind);
    var s := naming.snapshot(SnapshotKey(name, payload, epoch, source));
    var h := Handle(name, s, epoch, source, description, PageSize(pageSize), Max(0, offset));
    if s in l.snapshots {
      assert SnapshotSound(naming, l, s);
      RegisterHandleSound(naming, l, h);
    } else {
      FirstHandleSound(naming, l, s, Snapshot(name, payload, epoch, source, description), h);
    }
  }

  /** A new snapshot arrives together with its first handle. */
  lemma FirstHandleSound(naming: Naming, l: Ledger, s: string, snapshot: Snapshot, h: Handle)
    requires Distinct(naming) && Sound(naming, l) && s !in l.snapshots
    requires s == naming.snapshot(SnapshotKeyOf(snapshot)) && h.snapshotId == s && h.epoch == snapshot.epoch
    requires h.pageSize >= 1
    ensures var l1 := RegisterHandle(naming, l.(snapshots := l.snapshots[s := snapshot]), h).0;
            Sound(naming, l1) && (Aligned(l) ==> Aligned(l1))
  {
    var id := naming.handle(HandleKeyOf(h));
    var l1 := RegisterHandle(naming, l.(snapshots := l.snapshots[s := snapshot]), h).0;
    assert id in l.handles ==> HandleSound(naming, l, id);
    forall x | x in l1.handles
      ensures HandleSound(naming, l1, x)
    {
      assert x != id ==> HandleSound(naming, l, x);
    }
    forall x | x in l1.snapshots
      ensures SnapshotSound(naming, l1, x)
    {
      if x == s {
        assert l1.handles[id].snapshotId == s;
      } else {
        assert SnapshotSound(naming, l, x);
        var y :| y in l.handles && l.handles[y].snapshotId == x;
        assert l1.handles[y].snapshotId == x;
      }
    }
    assert forall f: nat :: IsOpen(l1, f) <==> IsOpen(l, f);
  }

  lemma MaterialiseSound(naming: Naming, l: Ledger, id: string, epoch: nat)
    requires Distinct(naming) && Sound(naming, l)
    ensures var (l1, page) := Materialise(naming, l, id, epoch);
            && Sound(naming, l1) && l1.frontiers == l.frontiers && l1.snapshots == l.snapshots
            && (page.Err? ==> l1 == l)
            && (page.Ok? && page.value.next.Some? ==>
                  page.value.next.value in l1.handles && page.value.next.value != id
                  && l1.handles[page.value.next.value].epoch == epoch)
            && (Aligned(l) ==> Aligned(l1))
  {
    if id in l.handles {
      assert HandleSound(naming, l, id);
      var h := l.handles[id];
      if h.epoch == epoch {
        var (payload, start, end, total) := Paged(l.snapshots[h.snapshotId].payload, h.offset, h.pageSize);
        if end < total {
          RegisterHandleSound(naming, l, h.(epoch := epoch, pageSize := h.pageSize, offset := end));
        }
      }
    }
  }

  ghost predicate HeldOpen(l: Ledger, handle: string) {
    exists f: nat :: Holds(l, f, handle)
  }

  /** With its frontier no longer open, a handle may be released. */
  lemma ReleaseSound(naming: Naming, l: Ledger, id: string)
    requires Sound(naming, l) && !HeldOpen(l, id)
    ensures Sound(naming, Release(l, id)) && (Aligned(l) ==> Aligned(Release(l, id)))
  {
    var l1 := Release(l, id);
    ReleaseFiled(naming, l, id);
    forall f: nat | IsOpen(l1, f)
      ensures IsOpen(l, f) && l.frontiers[f].handle != id
    {
      assert l.frontiers[f].handle == id ==> Holds(l, f, id);
    }
  }

  lemma ReleaseFiled(naming: Naming, l: Ledger, id: string)
    requires Filed(naming, l)
    ensures Filed(naming, Release(l, id))
  {
    if id in l.handles {
      var l1 := Release(l, id);
      forall x | x in l1.handles
        ensures HandleSound(naming, l1, x)
      {
        assert HandleSound(naming, l, x);
        assert l1.handles[x].snapshotId == l.handles[id].snapshotId
               ==> Referenced(l1.handles, l.handles[id].snapshotId);
      }
      forall x | x in l1.snapshots
        ensures SnapshotSound(naming, l1, x)
      {
        assert SnapshotSound(naming, l, x);
        var h :| h in l.handles && l.handles[h].snapshotId == x;
        if h != id {
          assert l1.handles[h].snapshotId == x;
        }
      }
    }
  }

  lemma CloseSound(naming: Naming, l: Ledger, f: nat, closed: Frontier)
    requires Sound(naming, l) && IsOpen(l, f) && closed.status != Open
    ensures var l1 := Release(l.(frontiers := l.frontiers[f := closed]), l.frontiers[f].handle);
            Sound(naming, l1) && (Aligned(l) ==> Aligned(l1))
  {
    var l0 := l.(frontiers := l.frontiers[f := closed]);
    SameFiled(naming, l, l0);
    forall x: nat | IsOpen(l0, x)
      ensures IsOpen(l, x) && x != f && l0.frontiers[x] == l.frontiers[x]
      ensures !Holds(l0, x, l.frontiers[f].handle)
    {
    }
    ReleaseSound(naming, l0, l.frontiers[f].handle);
  }

  lemma SameFiled(naming: Naming, l: Ledger, l1: Ledger)
    requires Filed(naming, l) && l1.handles == l.handles && l1.snapshots == l.snapshots
    ensures Filed(naming, l1)
  {
    forall x | x in l1.handles
      ensures HandleSound(naming, l1, x)
    {
      assert HandleSound(naming, l, x);
    }
    forall x | x in l1.snapshots
      ensures SnapshotSound(naming, l1, x)
    {
      assert SnapshotSound(naming, l, x);
    }
  }

  lemma ConsumeSound(naming: Naming, l: Ledger, f: nat)
    requires Sound(naming, l) && IsOpen(l, f)
    ensures Sound(naming, Consume(l, f)) && (Aligned(l) ==> Aligned(Consume(l, f)))
  {
    CloseSound(naming, l, f, l.frontiers[f].(status := Consumed));
  }

  lemma MarkStaleSound(naming: Naming, l: Ledger, f: nat, reason: string)
    requires Sound(naming, l) && IsOpen(l, f)
    ensures Sound(naming, MarkStale(l, f, reason)) && (Aligned(l) ==> Aligned(MarkStale(l, f, reason)))
  {
    CloseSound(naming, l, f, l.frontiers[f].(status := Stale, staleReason := Some(reason)));
  }

  lemma ExposeSound(naming: Naming, l: Ledger, handle: string, epoch: nat, source: string, count: nat, reason: string)
    requires Sound(naming, l) && handle in l.handles
    ensures var (l1, f) := Expose(l, handle, epoch, source, count, reason);
            && Sound(naming, l1) && Holds(l1, f, handle) && l1.handles == l.handles && l1.snapshots == l.snapshots
            && (Aligned(l) && l.handles[handle].epoch == epoch ==> Aligned(l1))
  {
    var (l1, f) := Expose(l, handle, epoch, source, count, reason);
    SameFiled(naming, l, l1);
    forall x: nat | IsOpen(l1, x) && x < |l.frontiers|
      ensures IsOpen(l, x) && l1.frontiers[x] == l.frontiers[x]
      ensures f == |l.frontiers| ==> l.frontiers[x].handle != handle
    {
      assert f == |l.frontiers| ==> !Holds(l, x, handle);
    }
  }

  // ---- a refused continuation ------------------------------------------------------------

  ghost predicate HeldByAnother(l: Ledger, f: nat, handle: string) {
    exists x: nat :: x != f && Holds(l, x, handle)
  }

  lemma NextNotHeld(naming: Naming, l: Ledger, f: nat, epoch: nat)
    requires Distinct(naming) && Sound(naming, l) && IsOpen(l, f)
    requires var page := Materialise(naming, l, l.frontiers[f].handle, epoch).1;
             page.Ok? && page.value.next.Some? && !HeldByAnother(l, f, page.value.next.value)
    ensures var (l1, page) := Materialise(naming, l, l.frontiers[f].handle, epoch);
            !HeldOpen(l1, page.value.next.value)
  {
    MaterialiseSound(naming, l, l.frontiers[f].handle, epoch);
    var (l1, page) := Materialise(naming, l, l.frontiers[f].handle, epoch);
    if HeldOpen(l1, page.value.next.value) {
      var x: nat :| Holds(l1, x, page.value.next.value);
      assert Holds(l, x, page.value.next.value);
    }
  }

  /** The next page's handle of a Frontier is held by another open Frontier. */
  ghost predicate NextIsShared(naming: Naming, l: Ledger, f: nat, epoch: nat)
    requires IsOpen(l, f)
  {
    var page := Materialise(naming, l, l.frontiers[f].handle, epoch).1;
    page.Ok? && page.value.next.Some? && HeldByAnother(l, f, page.value.next.value)
  }

  lemma RejectKeeps(naming: Naming, l: Ledger, f: nat, epoch: nat, reason: string)
    requires Distinct(naming) && Sound(naming, l) && IsOpen(l, f) && !NextIsShared(naming, l, f, epoch)
    ensures Sound(naming, Reject(naming, l, f, epoch, reason))
    ensures Aligned(l) ==> Aligned(Reject(naming, l, f, epoch, reason))
  {
    var (l1, page) := Materialise(naming, l, l.frontiers[f].handle, epoch);
    MaterialiseSound(naming, l, l.frontiers[f].handle, epoch);
    if page.Ok? && page.value.next.Some? {
      NextNotHeld(naming, l, f, epoch);
      ReleaseSound(naming, l1, page.value.next.value);
      MarkStaleSound(naming, Release(l1, page.value.next.value), f, reason);
    } else if page.Ok? {
      MarkStaleSound(naming, l1, f, reason);
    }
  }

  lemma RejectBreaks(naming: Naming, l: Ledger, f: nat, epoch: nat, reason: string)
    requires Distinct(naming) && Sound(naming, l) && IsOpen(l, f) && NextIsShared(naming, l, f, epoch)
    ensures !OpenLive(Reject(naming, l, f, epoch, reason))
  {
    var (l1, page) := Materialise(naming, l, l.frontiers[f].handle, epoch);
    MaterialiseSound(naming, l, l.frontiers[f].handle, epoch);
    var next := page.value.next.value;
    var x: nat :| x != f && Holds(l, x, next);
    var r := Reject(naming, l, f, epoch, reason);
    assert IsOpen(r, x) && r.frontiers[x].handle == next && next !in r.handles;
  }

  /** Refusing a page releases the handle of the next page outright. The ledger stays sound exactly when no
      other open Frontier holds that handle. */
  lemma RejectSoundIff(naming: Naming, l: Ledger, f: nat, epoch: nat, reason: string)
    requires Distinct(naming) && Sound(naming, l) && IsOpen(l, f)
    ensures Sound(naming, Reject(naming, l, f, epoch, reason)) <==> !NextIsShared(naming, l, f, epoch)
  {
    if NextIsShared(naming, l, f, epoch) {
      RejectBreaks(naming, l, f, epoch, reason);
    } else {
      RejectKeeps(naming, l, f, epoch, reason);
    }
  }

  // ---- every run -------------------------------------------------------------------------

  datatype Action =
    | DoRegister(kind: string, payload: Json, epoch: nat, source: string, description: string, pageSize: int,
                 offset: int)
    | DoMaterialise(handle: string, epoch: nat)
    | DoExpose(handle: string, epoch: nat, source: string, count: nat, reason: string)
    | DoConsume(f: nat)
    | DoMarkStale(f: nat, reason: string)
    | DoReject(f: nat, epoch: nat, reason: string)

  /** Only live handles are published, at their epoch; only open Frontiers are closed; a refused page's next
      handle is not held by another open Frontier. */
  ghost predicate Disciplined(naming: Naming, l: Ledger, a: Action) {
    match a
    case DoExpose(handle, epoch, _, _, _) => handle in l.handles && l.handles[handle].epoch == epoch
    case DoConsume(f) => IsOpen(l, f)
    case DoMarkStale(f, _) => IsOpen(l, f)
    case DoReject(f, epoch, _) =>
      IsOpen(l, f) && !NextIsShared(naming, l, f, epoch)
    case _ => true
  }

  function Perform(naming: Naming, l: Ledger, a: Action): Ledger
    requires a.DoReject? ==> IsOpen(l, a.f)
  {
    match a
    case DoRegister(kind, payload, epoch, source, description, pageSize, offset) =>
      RegisterSnapshot(naming, l, kind, payload, epoch, source, description, pageSize, offset).0
    case DoMaterialise(handle, epoch) => Materialise(naming, l, handle, epoch).0
    case DoExpose(handle, epoch, source, count, reason) => Expose(l, handle, epoch, source, count, reason).0
    case DoConsume(f) => Consume(l, f)
    case DoMarkStale(f, reason) => MarkStale(l, f, reason)
    case DoReject(f, epoch, reason) => Reject(naming, l, f, epoch, reason)
  }

  /** The states of a disciplined run from the empty ledger. */
  ghost predicate IsRun(naming: Naming, states: seq<Ledger>, actions: seq<Action>) {
    && |states| == |actions| + 1
    && states[0] == EMPTY_LEDGER
    && forall i :: 0 <= i < |actions| ==>
         Disciplined(naming, states[i], actions[i]) && states[i + 1] == Perform(naming, states[i], actions[i])
  }

  lemma ActionSound(naming: Naming, l: Ledger, a: Action)
    requires Distinct(naming) && Sound(naming, l) && Aligned(l) && Disciplined(naming, l, a)
    ensures Sound(naming, Perform(naming, l, a)) && Aligned(Perform(naming, l, a))
  {
    match a
    case DoRegister(kind, payload, epoch, source, description, pageSize, offset) =>
      RegisterSnapshotSound(naming, l, kind, payload, epoch, source, description, pageSize, offset);
    case DoMaterialise(handle, epoch) =>
      MaterialiseSound(naming, l, handle, epoch);
    case DoExpose(handle, epoch, source, count, reason) =>
      ExposeSound(naming, l, handle, epoch, source, count, reason);
    case DoConsume(f) =>
      ConsumeSound(naming, l, f);
    case DoMarkStale(f, reason) =>
      MarkStaleSound(naming, l, f, reason);
    case DoReject(f, epoch, reason) =>
      RejectKeeps(naming, l, f, epoch, reason);
  }

  /** Throughout every disciplined run the ledger is sound: no snapshot dangles or leaks, and every open
      Frontier holds its own live handle. */
  lemma {:induction false} RunSound(naming: Naming, states: seq<Ledger>, actions: seq<Action>, n: nat)
    requires Distinct(naming) && IsRun(naming, states, actions) && n < |states|
    ensures Sound(naming, states[n]) && Aligned(states[n])
  {
    if n == 0 {
      assert forall f: nat :: !IsOpen(EMPTY_LEDGER, f);
    } else {
      RunSound(naming, states, actions, n - 1);
      ActionSound(naming, states[n - 1], actions[n - 1]);
    }
  }

  /** A Frontier that resolves can be materialised. */
  lemma ResolvedMaterialises(naming: Naming, l: Ledger, f: nat, epoch: nat)
    requires Sound(naming, l) && Aligned(l) && Resolve(l, f, epoch).Ok?
    ensures Materialise(naming, l, Resolve(l, f, epoch).value, epoch).1.Ok?
  {
    assert IsOpen(l, f);
    assert HandleSound(naming, l, l.frontiers[f].handle);
  }

  // ---- a disciplined run after which refusing a page breaks the ledger -------------------

  const PAYLOAD := JArray([JNumber(1), JNumber(2), JNumber(3)])

  function SnapshotIdOf(naming: Naming): string {
    naming.snapshot(SnapshotKey("continuation", PAYLOAD, 0, ""))
  }

  /** The cursor that stands at one item of the payload, with pages of one item. */
  function CursorAt(naming: Naming, offset: nat): Handle {
    Handle("continuation", SnapshotIdOf(naming), 0, "", "", 1, offset)
  }

  function IdAt(naming: Naming, offset: nat): string {
    naming.handle(HandleKeyOf(CursorAt(naming, offset)))
  }

  function FrontierAt(naming: Naming, offset: nat, status: FrontierStatus): Frontier {
    Frontier(IdAt(naming, offset), 0, "", 1, "", status, None)
  }

  /** Registers the payload, or publishes the cursor at an item of it. */
  function RegisterPayload(): Action {
    DoRegister("", PAYLOAD, 0, "", "", 1, 0)
  }

  function ExposeAt(naming: Naming, offset: nat): Action {
    DoExpose(IdAt(naming, offset), 0, "", 1, "")
  }

  /** A ledger holding the payload, with these cursors and Frontiers. */
  function Holding(naming: Naming, handles: map<string, Handle>, frontiers: seq<Frontier>): Ledger {
    Ledger(handles, map[SnapshotIdOf(naming) := Snapshot("continuation", PAYLOAD, 0, "", "")], frontiers)
  }

  lemma IdsDiffer(naming: Naming)
    requires Distinct(naming)
    ensures IdAt(naming, 0) != IdAt(naming, 1)
  {
    assert naming.handleOf(IdAt(naming, 0)) == HandleKeyOf(CursorAt(naming, 0));
    assert naming.handleOf(IdAt(naming, 1)) == HandleKeyOf(CursorAt(naming, 1));
  }

  lemma PayloadRegisters(naming: Naming, l: Ledger)
    requires l == EMPTY_LEDGER || l == Holding(naming, l.handles, l.frontiers)
    ensures Perform(naming, l, RegisterPayload())
            == Holding(naming, l.handles[IdAt(naming, 0) := CursorAt(naming, 0)], l.frontiers)
  {
  }

  lemma FirstPage(naming: Naming, l: Ledger)
    requires l == Holding(naming, l.handles, l.frontiers)
    requires IdAt(naming, 0) in l.handles && l.handles[IdAt(naming, 0)] == CursorAt(naming, 0)
    ensures var (l1, page) := Materialise(naming, l, IdAt(naming, 0), 0);
            && l1 == l.(handles := l.handles[IdAt(naming, 1) := CursorAt(naming, 1)])
            && page.Ok? && page.value.next == Some(IdAt(naming, 1))
  {
  }

  lemma AtExposes(naming: Naming, l: Ledger, offset: nat)
    requires forall f: nat :: !Holds(l, f, IdAt(naming, offset))
    ensures Perform(naming, l, ExposeAt(naming, offset))
            == l.(frontiers := l.frontiers + [FrontierAt(naming, offset, Open)])
  {
  }

  /** With the second cursor there, consuming the first Frontier only takes its own cursor away. */
  lemma FirstConsumes(naming: Naming, l: Ledger)
    requires Distinct(naming)
    requires l == Holding(naming, map[IdAt(naming, 0) := CursorAt(naming, 0), IdAt(naming, 1) := CursorAt(naming, 1)],
                          [FrontierAt(naming, 0, Open)])
    ensures Consume(l, 0) == Holding(naming, map[IdAt(naming, 1) := CursorAt(naming, 1)],
                                     [FrontierAt(naming, 0, Consumed)])
  {
    IdsDiffer(naming);
    var rest := l.handles - {IdAt(naming, 0)};
    assert rest == map[IdAt(naming, 1) := CursorAt(naming, 1)];
    assert IdAt(naming, 1) in rest && rest[IdAt(naming, 1)].snapshotId == SnapshotIdOf(naming);
  }

  /** The payload is registered, its first page published, materialised and consumed, and the second published. */
  lemma SecondPageOpens(naming: Naming) returns (states: seq<Ledger>, actions: seq<Action>)
    requires Distinct(naming)
    ensures IsRun(naming, states, actions) && |actions| == 5
    ensures states[5] == Holding(naming, map[IdAt(naming, 1) := CursorAt(naming, 1)],
                                 [FrontierAt(naming, 0, Consumed), FrontierAt(naming, 1, Open)])
  {
    var a, b := IdAt(naming, 0), IdAt(naming, 1);
    IdsDiffer(naming);
    var l1 := Holding(naming, map[a := CursorAt(naming, 0)], []);
    var l2 := l1.(frontiers := [FrontierAt(naming, 0, Open)]);
    var l3 := l2.(handles := map[a := CursorAt(naming, 0), b := CursorAt(naming, 1)]);
    var l4 := Holding(naming, map[b := CursorAt(naming, 1)], [FrontierAt(naming, 0, Consumed)]);
    var l5 := l4.(frontiers := [FrontierAt(naming, 0, Consumed), FrontierAt(naming, 1, Open)]);
    actions := [RegisterPayload(), ExposeAt(naming, 0), DoMaterialise(a, 0), DoConsume(0), ExposeAt(naming, 1)];
    states := [EMPTY_LEDGER, l1, l2, l3, l4, l5];
    PayloadRegisters(naming, EMPTY_LEDGER);
    AtExposes(naming, l1, 0);
    FirstPage(naming, l2);
    FirstConsumes(naming, l3);
    AtExposes(naming, l4, 1);
  }

  /** The payload is registered and published again while its second page is open. */
  lemma FirstPageReopens(naming: Naming, l: Ledger)
    requires Distinct(naming)
    requires l == Holding(naming, map[IdAt(naming, 1) := CursorAt(naming, 1)],
                          [FrontierAt(naming, 0, Consumed), FrontierAt(naming, 1, Open)])
    ensures var l1 := Perform(naming, l, RegisterPayload());
            && Disciplined(naming, l, RegisterPayload()) && Disciplined(naming, l1, ExposeAt(naming, 0))
            && var l2 := Perform(naming, l1, ExposeAt(naming, 0));
               IsOpen(l2, 2) && NextIsShared(naming, l2, 2, 0)
  {
    IdsDiffer(naming);
    PayloadRegisters(naming, l);
    var l1 := Perform(naming, l, RegisterPayload());
    AtExposes(naming, l1, 0);
    var l2 := Perform(naming, l1, ExposeAt(naming, 0));
    FirstPage(naming, l2);
    assert Holds(l2, 1, IdAt(naming, 1));
  }

  ghost predicate BreaksWhenRefused(naming: Naming, states: seq<Ledger>, actions: seq<Action>, f: nat) {
    && IsRun(naming, states, actions)
    && var l := states[|actions|];
       IsOpen(l, f) && NextIsShared(naming, l, f, 0) && !OpenLive(Reject(naming, l, f, 0, "source_revision_changed"))
  }

  /** The failing case is reached by a disciplined run: continue a Frontier to its second page, register and publish
      the same payload again, and refuse that Frontier while the second page is open. */
  lemma RefusalCanBreak(naming: Naming)
    requires Distinct(naming)
    ensures exists states, actions, f: nat :: BreaksWhenRefused(naming, states, actions, f)
  {
    var begun, first := SecondPageOpens(naming);
    FirstPageReopens(naming, begun[5]);
    var l6 := Perform(naming, begun[5], RegisterPayload());
    var l7 := Perform(naming, l6, ExposeAt(naming, 0));
    var states, actions := begun + [l6, l7], first + [RegisterPayload(), ExposeAt(naming, 0)];
    forall i | 0 <= i < |actions|
      ensures Disciplined(naming, states[i], actions[i]) && states[i + 1] == Perform(naming, states[i], actions[i])
    {
      if i < 5 {
        assert states[i] == begun[i] && states[i + 1] == begun[i + 1] && actions[i] == first[i];
      }
    }
    RunSound(naming, states, actions, 7);
    RejectBreaks(naming, l7, 2, 0, "source_revision_changed");
    assert BreaksWhenRefused(naming, states, actions, 2);
  }

  // ---- draining a Frontier ---------------------------------------------------------------

  /** One round of a drain: the session's own continuation of an open Frontier with its page, and an open Frontier
      that then holds the next one. */
  predicate Round(naming: Naming, l: Ledger, f: nat, epoch: nat, page: Materialised, l': Ledger, f': nat) {
    && IsOpen(l, f) && l.frontiers[f].epoch == epoch
    && Materialise(naming, l, l.frontiers[f].handle, epoch).1 == Ok(page)
    && l' == ContinueObservation(naming, l, epoch, f, false)
    && (page.next.Some? ==> Holds(l', f', page.next.value))
  }

  /** A whole drain: rounds until a page has no next, with the ledger and the Frontier before each round. */
  ghost predicate IsDrain(naming: Naming, states: seq<Ledger>, fs: seq<nat>, pages: seq<Materialised>, epoch: nat) {
    && |pages| > 0 && |states| == |fs| == |pages| + 1
    && (forall i :: 0 <= i < |pages| ==> Round(naming, states[i], fs[i], epoch, pages[i], states[i + 1], fs[i + 1]))
    && (forall i :: 0 <= i < |pages| ==> (pages[i].next.None? <==> i == |pages| - 1))
  }

  lemma DrainTail(naming: Naming, states: seq<Ledger>, fs: seq<nat>, pages: seq<Materialised>, epoch: nat)
    requires IsDrain(naming, states, fs, pages, epoch) && |pages| > 1
    ensures IsDrain(naming, states[1..], fs[1..], pages[1..], epoch)
  {
    forall i | 0 <= i < |pages[1..]|
      ensures Round(naming, states[1..][i], fs[1..][i], epoch, pages[1..][i], states[1..][i + 1], fs[1..][i + 1])
    {
      assert Round(naming, states[i + 1], fs[i + 1], epoch, pages[i + 1], states[i + 2], fs[i + 2]);
    }
  }

  /** The handle stands at `offset` of a paged snapshot. */
  predicate HandleAt(l: Ledger, id: string, epoch: nat, snapshotId: string, items: seq<Json>, pageSize: nat,
                     offset: nat) {
    && id in l.handles
    && var h := l.handles[id];
       && h.epoch == epoch && h.snapshotId == snapshotId && h.pageSize == pageSize >= 1 && h.offset == offset
       && snapshotId in l.snapshots && Items(l.snapshots[snapshotId].payload) == Some(items)
  }

  /** The Frontier is open and its handle stands at `offset`. */
  predicate StandsAt(l: Ledger, f: nat, epoch: nat, snapshotId: string, items: seq<Json>, pageSize: nat, offset: nat) {
    && IsOpen(l, f) && l.frontiers[f].epoch == epoch
    && HandleAt(l, l.frontiers[f].handle, epoch, snapshotId, items, pageSize, offset)
  }

  /** Every handle on the snapshot is this one. */
  ghost predicate OnlyHandle(l: Ledger, snapshotId: string, id: string) {
    forall h :: h in l.handles && l.handles[h].snapshotId == snapshotId ==> h == id
  }

  /** The least number of pages, and at least one: `k` pages reach the end, and one page fewer would not. */
  predicate ExactPages(k: nat, size: nat, offset: nat, pageSize: nat) {
    k >= 1 && size <= offset + k * pageSize && (k > 1 ==> offset + (k - 1) * pageSize < size)
  }

  lemma ExactPagesNext(k: nat, size: nat, offset: nat, pageSize: nat)
    requires ExactPages(k, size, offset + pageSize, pageSize) && offset + pageSize < size
    ensures ExactPages(k + 1, size, offset, pageSize)
  {
    assert (k + 1) * pageSize == k * pageSize + pageSize;
    assert k > 1 ==> k * pageSize == (k - 1) * pageSize + pageSize;
  }

  function Delivered(pages: seq<Materialised>): seq<Json> {
    if pages == [] then []
    else (if Items(pages[0].payload).Some? then Items(pages[0].payload).value else []) + Delivered(pages[1..])
  }

  /** The payload of a page differs from the whole only in its items. */
  predicate Reframed(whole: Json, page: Json) {
    && (whole.JArray? <==> page.JArray?)
    && (whole.JObject? ==> page.JObject? && page.members.Keys == whole.members.Keys
                           && forall key :: key in whole.members && key != "items"
                                            ==> page.members[key] == whole.members[key])
  }

  /** A page is its slice of the snapshot in the frame of the snapshot, with the exact count still to come and a
      handle for it. */
  lemma PageIsExact(naming: Naming, l: Ledger, id: string, epoch: nat, snapshotId: string, items: seq<Json>,
                    pageSize: nat, offset: nat)
    requires Distinct(naming) && Sound(naming, l) && HandleAt(l, id, epoch, snapshotId, items, pageSize, offset)
    ensures var (l1, page) := Materialise(naming, l, id, epoch);
            var start, end := Min(offset, |items|), Min(|items|, Min(offset, |items|) + pageSize);
            && page.Ok? && Items(page.value.payload) == Some(items[start..end])
            && Reframed(l.snapshots[snapshotId].payload, page.value.payload)
            && page.value.start == start && page.value.end == end && page.value.Remaining() == |items| - end
            && (page.value.next.None? <==> end == |items|)
            && (page.value.next.None? ==> l1 == l)
            && (page.value.next.Some? ==>
                  && page.value.next.value != id
                  && l1 == l.(handles := l.handles[page.value.next.value :=
                                                     l.handles[id].(offset := offset + pageSize)]))
  {
    assert HandleSound(naming, l, id);
    MaterialiseSound(naming, l, id, epoch);
  }

  /** In a sound ledger a page is refused only for a handle that is unknown or of another epoch. */
  lemma OnlyLiveMaterialises(naming: Naming, l: Ledger, id: string, epoch: nat)
    requires Sound(naming, l)
    ensures var page := Materialise(naming, l, id, epoch).1;
            && (page == Err(HandleNotFound) <==> id !in l.handles)
            && (page == Err(HandleStale) <==> id in l.handles && l.handles[id].epoch != epoch)
            && (page.Ok? <==> id in l.handles && l.handles[id].epoch == epoch)
  {
    if id in l.handles {
      assert HandleSound(naming, l, id);
    }
  }

  /** A payload without items is delivered whole, with nothing to follow. */
  lemma WholeIsDelivered(naming: Naming, l: Ledger, id: string, payload: Json)
    requires Sound(naming, l) && id in l.handles && l.handles[id].snapshotId in l.snapshots
    requires payload == l.snapshots[l.handles[id].snapshotId].payload && !payload.JArray?
    requires payload.JObject? && "items" in payload.members ==> !payload.members["items"].JArray?
    ensures var (l1, page) := Materialise(naming, l, id, l.handles[id].epoch);
            && l1 == l && page.Ok? && page.value.payload == payload
            && page.value.next.None? && page.value.Complete() && page.value.Remaining() == 0
  {
    assert HandleSound(naming, l, id);
  }

  /** Every Frontier but one is as it was, and at most one more stands behind them. */
  ghost predicate OthersStay(l: Ledger, l': Ledger, f: nat) {
    && |l.frontiers| <= |l'.frontiers| <= |l.frontiers| + 1
    && forall i :: 0 <= i < |l.frontiers| && i != f ==> l'.frontiers[i] == l.frontiers[i]
  }

  /** The page behind the one at `offset` is published: an open Frontier stands there, and a new one says how much
      remains. */
  predicate NextStands(l: Ledger, l': Ledger, f: nat, epoch: nat, snapshotId: string, items: seq<Json>, pageSize: nat,
                       offset: nat, next: nat) {
    && next != f && offset + pageSize < |items|
    && StandsAt(l', next, epoch, snapshotId, items, pageSize, offset + pageSize)
    && (next >= |l.frontiers| ==> l'.frontiers[next].count == |items| - offset - pageSize)
  }

  lemma ConsumedStep(naming: Naming, l: Ledger, f: nat, epoch: nat, snapshotId: string, items: seq<Json>,
                     pageSize: nat, offset: nat)
    requires Distinct(naming) && Sound(naming, l) && Aligned(l)
    requires StandsAt(l, f, epoch, snapshotId, items, pageSize, offset)
    ensures var (l1, page) := Materialise(naming, l, l.frontiers[f].handle, epoch);
            var l2 := Consume(l1, f);
            && page.Ok? && Sound(naming, l2) && Aligned(l2)
            && l2.frontiers == l.frontiers[f := l.frontiers[f].(status := Consumed)]
            && l.frontiers[f].handle !in l2.handles
            && (page.value.next.None? && OnlyHandle(l, snapshotId, l.frontiers[f].handle)
                ==> snapshotId !in l2.snapshots)
            && (page.value.next.Some? ==> HandleAt(l2, page.value.next.value, epoch, snapshotId, items, pageSize,
                                                   offset + pageSize))
            && (page.value.next.Some? && OnlyHandle(l, snapshotId, l.frontiers[f].handle)
                ==> OnlyHandle(l2, snapshotId, page.value.next.value))
  {
    var id := l.frontiers[f].handle;
    assert HandleSound(naming, l, id);
    PageIsExact(naming, l, id, epoch, snapshotId, items, pageSize, offset);
    MaterialiseSound(naming, l, id, epoch);
    var (l1, page) := Materialise(naming, l, id, epoch);
    ConsumeSound(naming, l1, f);
    if page.value.next.Some? {
      SnapshotSurvives(l1, f, page.value.next.value);
    }
  }

  /** The Frontier that holds the next page after a continuation. */
  function NextOf(naming: Naming, l: Ledger, f: nat, epoch: nat): nat
    requires IsOpen(l, f)
  {
    var (l1, page) := Materialise(naming, l, l.frontiers[f].handle, epoch);
    if page.Ok? && page.value.next.Some? then FindOpen(Consume(l1, f), page.value.next.value, 0) else 0
  }

  /** Continuing a Frontier in good standing consumes it and leaves every other as it was. While items remain, an
      open Frontier then stands at the next page of the same snapshot; after the last page the snapshot is gone if
      no other handle named it. */
  lemma ContinuationIsExact(naming: Naming, l: Ledger, f: nat, epoch: nat, snapshotId: string, items: seq<Json>,
                            pageSize: nat, offset: nat)
    requires Distinct(naming) && Sound(naming, l) && Aligned(l)
    requires StandsAt(l, f, epoch, snapshotId, items, pageSize, offset)
    ensures var l' := ContinueObservation(naming, l, epoch, f, false);
            && Sound(naming, l') && Aligned(l') && OthersStay(l, l', f)
            && l'.frontiers[f] == l.frontiers[f].(status := Consumed) && l.frontiers[f].handle !in l'.handles
            && (offset + pageSize < |items| ==> exists next: nat ::
                  NextStands(l, l', f, epoch, snapshotId, items, pageSize, offset, next))
            && (offset + pageSize < |items| && OnlyHandle(l, snapshotId, l.frontiers[f].handle)
                ==> exists id :: OnlyHandle(l', snapshotId, id))
            && (offset + pageSize >= |items| ==> |l'.frontiers| == |l.frontiers|)
            && (offset + pageSize >= |items| && OnlyHandle(l, snapshotId, l.frontiers[f].handle)
                ==> snapshotId !in l'.snapshots)
  {
    assert HandleSound(naming, l, l.frontiers[f].handle);
    PageIsExact(naming, l, l.frontiers[f].handle, epoch, snapshotId, items, pageSize, offset);
    ConsumedStep(naming, l, f, epoch, snapshotId, items, pageSize, offset);
    var (l1, page) := Materialise(naming, l, l.frontiers[f].handle, epoch);
    if page.value.next.Some? {
      var next, l2 := page.value.next.value, Consume(l1, f);
      PublishedStands(naming, l2, next, epoch, page.value.Remaining(), snapshotId, items, pageSize, offset + pageSize);
      var l' := ContinueObservation(naming, l, epoch, f, false);
      assert NextStands(l, l', f, epoch, snapshotId, items, pageSize, offset, NextOf(naming, l, f, epoch));
      assert OnlyHandle(l, snapshotId, l.frontiers[f].handle) ==> OnlyHandle(l', snapshotId, next);
    }
  }

  /** Exactly an open Frontier of this epoch can be continued. Any other is refused for what it is: unknown, consumed,
      or stale, be it marked so or left over from an earlier epoch; and then nothing changes. */
  lemma OnlyOpenContinues(naming: Naming, l: Ledger, f: nat, epoch: nat, revised: bool)
    requires Distinct(naming) && Sound(naming, l) && Aligned(l)
    ensures Resolve(l, f, epoch).Ok? <==> IsOpen(l, f) && l.frontiers[f].epoch == epoch
    ensures Resolve(l, f, epoch) == Err(FrontierNotFound) <==> f >= |l.frontiers|
    ensures Resolve(l, f, epoch) == Err(FrontierConsumed) <==> f < |l.frontiers| && l.frontiers[f].status == Consumed
    ensures Resolve(l, f, epoch) == Err(FrontierStale)
            <==> f < |l.frontiers| && (l.frontiers[f].status == Stale
                                       || (l.frontiers[f].status == Open && l.frontiers[f].epoch != epoch))
    ensures Resolve(l, f, epoch).Err? <==> ContinueObservation(naming, l, epoch, f, revised) == l
  {
    if IsOpen(l, f) {
      assert HandleSound(naming, l, l.frontiers[f].handle);
      if l.frontiers[f].epoch == epoch {
        var l' := ContinueObservation(naming, l, epoch, f, revised);
        assert !IsOpen(l', f);
      }
    }
  }

  /** A continuation whose source was revised delivers nothing: the Frontier is stale, no other changes, and the
      handles of this page and the next are gone. */
  lemma RefusalIsExact(naming: Naming, l: Ledger, f: nat, epoch: nat, snapshotId: string, items: seq<Json>,
                       pageSize: nat, offset: nat)
    requires Distinct(naming) && Sound(naming, l) && Aligned(l)
    requires StandsAt(l, f, epoch, snapshotId, items, pageSize, offset)
    ensures var l' := ContinueObservation(naming, l, epoch, f, true);
            && l'.frontiers == l.frontiers[f := l.frontiers[f].(status := Stale,
                                                                staleReason := Some("source_revision_changed"))]
            && l.frontiers[f].handle !in l'.handles
            && (OnlyHandle(l, snapshotId, l.frontiers[f].handle) ==> snapshotId !in l'.snapshots)
    ensures var page := Materialise(naming, l, l.frontiers[f].handle, epoch).1;
            page.Ok? && page.value.next.Some?
            ==> page.value.next.value !in ContinueObservation(naming, l, epoch, f, true).handles
  {
    var id := l.frontiers[f].handle;
    assert HandleSound(naming, l, id);
    PageIsExact(naming, l, id, epoch, snapshotId, items, pageSize, offset);
  }

  /** Consuming a Frontier keeps a snapshot that another handle names. */
  lemma SnapshotSurvives(l: Ledger, f: nat, other: string)
    requires IsOpen(l, f) && l.frontiers[f].handle in l.handles && other in l.handles && other != l.frontiers[f].handle
    requires l.handles[other].snapshotId == l.handles[l.frontiers[f].handle].snapshotId
    ensures Consume(l, f) == Ledger(l.handles - {l.frontiers[f].handle}, l.snapshots,
                                    l.frontiers[f := l.frontiers[f].(status := Consumed)])
  {
    var rest := l.handles - {l.frontiers[f].handle};
    assert other in rest && rest[other].snapshotId == l.handles[other].snapshotId;
  }

  lemma PublishedStands(naming: Naming, l: Ledger, next: string, epoch: nat, count: nat, snapshotId: string,
                        items: seq<Json>, pageSize: nat, offset: nat)
    requires Sound(naming, l) && Aligned(l) && HandleAt(l, next, epoch, snapshotId, items, pageSize, offset)
    ensures var (l1, f) := Expose(l, next, epoch, CONTINUE_OBSERVATION, count, "continuation");
            && Sound(naming, l1) && Aligned(l1) && StandsAt(l1, f, epoch, snapshotId, items, pageSize, offset)
            && l1.handles == l.handles && Holds(l1, f, next)
  {
    ExposeSound(naming, l, next, epoch, CONTINUE_OBSERVATION, count, "continuation");
    assert Holds(Expose(l, next, epoch, CONTINUE_OBSERVATION, count, "continuation").0,
                 Expose(l, next, epoch, CONTINUE_OBSERVATION, count, "continuation").1, next);
  }

  /** Everything a drain needs of its starting point; `alone` says no other handle names the snapshot. */
  ghost predicate Ready(naming: Naming, l: Ledger, f: nat, epoch: nat, snapshotId: string, items: seq<Json>,
                        pageSize: nat, offset: nat, alone: bool)
  {
    && Distinct(naming) && Sound(naming, l) && Aligned(l)
    && StandsAt(l, f, epoch, snapshotId, items, pageSize, offset)
    && (alone ==> OnlyHandle(l, snapshotId, l.frontiers[f].handle))
  }

  /** A payload paged over these items. */
  predicate PagedOver(payload: Json, items: seq<Json>) {
    || payload == JArray(items)
    || (payload.JObject? && "items" in payload.members && payload.members["items"] == JArray(items))
  }

  /** The page size asked for, with twelve for none and never less than one. */
  predicate SizeAsked(asked: int, size: nat) {
    (asked > 0 ==> size == asked) && (asked == 0 ==> size == 12) && (asked < 0 ==> size == 1)
  }

  /** Registering a payload and publishing its handle makes a Frontier ready for reading it from the offset on. A
      snapshot stored only now is read by no one else. */
  lemma RegisteredIsReady(naming: Naming, l: Ledger, kind: string, payload: Json, epoch: nat, source: string,
                          description: string, asked: int, offset: int, purpose: string, count: nat, reason: string,
                          items: seq<Json>, size: nat)
    requires Distinct(naming) && Sound(naming, l) && Aligned(l) && PagedOver(payload, items) && SizeAsked(asked, size)
    ensures var (l1, handle) := RegisterSnapshot(naming, l, kind, payload, epoch, source, description, asked, offset);
            var (l2, f) := Expose(l1, handle, epoch, purpose, count, reason);
            var id := l1.handles[handle].snapshotId;
            && l1.snapshots[id].payload == payload
            && Ready(naming, l2, f, epoch, id, items, size, if offset < 0 then 0 else offset, id !in l.snapshots)
  {
    RegisterSnapshotSound(naming, l, kind, payload, epoch, source, description, asked, offset);
    var (l1, handle) := RegisterSnapshot(naming, l, kind, payload, epoch, source, description, asked, offset);
    ExposeSound(naming, l1, handle, epoch, purpose, count, reason);
    var id := l1.handles[handle].snapshotId;
    if id in l.snapshots {
      assert SnapshotSound(naming, l, id);
    } else {
      forall h | h in l.handles
        ensures l.handles[h].snapshotId != id
      {
        assert HandleSound(naming, l, h);
      }
    }
  }

  /** A ready Frontier can always be continued. */
  lemma ReadyContinues(naming: Naming, l: Ledger, f: nat, epoch: nat, snapshotId: string, items: seq<Json>,
                       pageSize: nat, offset: nat, alone: bool)
    requires Ready(naming, l, f, epoch, snapshotId, items, pageSize, offset, alone)
    ensures exists page, l', f' :: Round(naming, l, f, epoch, page, l', f')
  {
    assert HandleSound(naming, l, l.frontiers[f].handle);
    ConsumedStep(naming, l, f, epoch, snapshotId, items, pageSize, offset);
    var (l1, page) := Materialise(naming, l, l.frontiers[f].handle, epoch);
    if page.value.next.Some? {
      PublishedStands(naming, Consume(l1, f), page.value.next.value, epoch, page.value.Remaining(), snapshotId, items,
                      pageSize, offset + pageSize);
    }
    assert Round(naming, l, f, epoch, page.value, ContinueObservation(naming, l, epoch, f, false),
                 NextOf(naming, l, f, epoch));
  }

  /** One round delivers its slice; then either the rest is ready, or the snapshot is gone if it was alone. */
  lemma RoundDelivers(naming: Naming, l: Ledger, f: nat, epoch: nat, page: Materialised, l': Ledger, f': nat,
                      snapshotId: string, items: seq<Json>, pageSize: nat, offset: nat, alone: bool)
    requires Ready(naming, l, f, epoch, snapshotId, items, pageSize, offset, alone)
    requires Round(naming, l, f, epoch, page, l', f')
    ensures Items(page.payload) == Some(items[Min(offset, |items|)..Min(|items|, Min(offset, |items|) + pageSize)])
    ensures page.Remaining() == Max(0, |items| - Min(offset, |items|) - pageSize)
    ensures page.next.None? <==> offset + pageSize >= |items|
    ensures Sound(naming, l')
    ensures page.next.Some? ==> Ready(naming, l', f', epoch, snapshotId, items, pageSize, offset + pageSize, alone)
    ensures page.next.None? && alone ==> snapshotId !in l'.snapshots
  {
    assert HandleSound(naming, l, l.frontiers[f].handle);
    PageIsExact(naming, l, l.frontiers[f].handle, epoch, snapshotId, items, pageSize, offset);
    ConsumedStep(naming, l, f, epoch, snapshotId, items, pageSize, offset);
    if page.next.Some? {
      var l2 := Consume(Materialise(naming, l, l.frontiers[f].handle, epoch).0, f);
      PublishedStands(naming, l2, page.next.value, epoch, page.Remaining(), snapshotId, items, pageSize,
                      offset + pageSize);
    }
  }

  /** After its first round a longer drain is a drain of the rest. */
  lemma DrainRest(naming: Naming, states: seq<Ledger>, fs: seq<nat>, pages: seq<Materialised>, epoch: nat,
                  snapshotId: string, items: seq<Json>, pageSize: nat, offset: nat, alone: bool)
    requires IsDrain(naming, states, fs, pages, epoch)
    requires Ready(naming, states[0], fs[0], epoch, snapshotId, items, pageSize, offset, alone)
    ensures pageSize >= 1 && (|pages| > 1 <==> offset + pageSize < |items|)
    ensures |pages| > 1 ==> IsDrain(naming, states[1..], fs[1..], pages[1..], epoch)
    ensures |pages| > 1 ==> Ready(naming, states[1..][0], fs[1..][0], epoch, snapshotId, items, pageSize,
                                  offset + pageSize, alone)
    ensures |pages| == 1 && alone ==> snapshotId !in states[1].snapshots
  {
    assert Round(naming, states[0], fs[0], epoch, pages[0], states[1], fs[1]);
    RoundDelivers(naming, states[0], fs[0], epoch, pages[0], states[1], fs[1], snapshotId, items, pageSize, offset,
                  alone);
    if |pages| > 1 {
      DrainTail(naming, states, fs, pages, epoch);
    }
  }

  lemma SliceThenRest(items: seq<Json>, offset: nat, pageSize: nat)
    ensures var start := Min(offset, |items|);
            items[start..] == items[start..Min(|items|, start + pageSize)] + items[Min(offset + pageSize, |items|)..]
  {
  }

  lemma {:induction false} DrainDelivers(naming: Naming, states: seq<Ledger>, fs: seq<nat>, pages: seq<Materialised>,
                                         epoch: nat, snapshotId: string, items: seq<Json>, pageSize: nat, offset: nat,
                                         alone: bool)
    requires IsDrain(naming, states, fs, pages, epoch)
    requires Ready(naming, states[0], fs[0], epoch, snapshotId, items, pageSize, offset, alone)
    ensures Delivered(pages) == items[Min(offset, |items|)..]
    ensures ExactPages(|pages|, |items|, offset, pageSize)
    decreases |pages|
  {
    assert Round(naming, states[0], fs[0], epoch, pages[0], states[1], fs[1]);
    RoundDelivers(naming, states[0], fs[0], epoch, pages[0], states[1], fs[1], snapshotId, items, pageSize, offset,
                  alone);
    DrainRest(naming, states, fs, pages, epoch, snapshotId, items, pageSize, offset, alone);
    SliceThenRest(items, offset, pageSize);
    if |pages| > 1 {
      DrainDelivers(naming, states[1..], fs[1..], pages[1..], epoch, snapshotId, items, pageSize, offset + pageSize,
                    alone);
      ExactPagesNext(|pages| - 1, |items|, offset, pageSize);
    }
  }

  lemma {:induction false} DrainKeepsSnapshot(naming: Naming, states: seq<Ledger>, fs: seq<nat>,
                                              pages: seq<Materialised>, epoch: nat, snapshotId: string,
                                              items: seq<Json>, pageSize: nat, offset: nat, alone: bool)
    requires IsDrain(naming, states, fs, pages, epoch)
    requires Ready(naming, states[0], fs[0], epoch, snapshotId, items, pageSize, offset, alone)
    ensures forall i :: 0 <= i < |pages| ==> snapshotId in states[i].snapshots
    ensures alone ==> snapshotId !in states[|pages|].snapshots
    decreases |pages|
  {
    DrainRest(naming, states, fs, pages, epoch, snapshotId, items, pageSize, offset, alone);
    if |pages| > 1 {
      DrainKeepsSnapshot(naming, states[1..], fs[1..], pages[1..], epoch, snapshotId, items, pageSize,
                         offset + pageSize, alone);
      forall i | 0 < i < |pages|
        ensures snapshotId in states[i].snapshots
      {
        assert states[i] == states[1..][i - 1];
      }
    }
  }

  /** Draining delivers every item from the offset on, once and in order, in exactly the expected number of
      pages; the snapshot survives to the last page and is then gone, unless some other handle names it. */
  lemma DrainIsExact(naming: Naming, states: seq<Ledger>, fs: seq<nat>, pages: seq<Materialised>, epoch: nat,
                     snapshotId: string, items: seq<Json>, pageSize: nat, offset: nat, alone: bool)
    requires IsDrain(naming, states, fs, pages, epoch)
    requires Ready(naming, states[0], fs[0], epoch, snapshotId, items, pageSize, offset, alone)
    ensures Delivered(pages) == items[Min(offset, |items|)..]
    ensures ExactPages(|pages|, |items|, offset, pageSize)
    ensures forall i :: 0 <= i < |pages| ==> snapshotId in states[i].snapshots
    ensures alone ==> snapshotId !in states[|pages|].snapshots
  {
    DrainDelivers(naming, states, fs, pages, epoch, snapshotId, items, pageSize, offset, alone);
    DrainKeepsSnapshot(naming, states, fs, pages, epoch, snapshotId, items, pageSize, offset, alone);
  }
}
