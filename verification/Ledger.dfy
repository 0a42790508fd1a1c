/** The observation ledger: immutable snapshots, light cursor handles and public single-use Frontiers.

    Snapshot and handle ids are hashes of their identity; `Naming` stands for the two hash functions,
    with what an id identifies as their inverses.
    Frontier `fr-0001` is position 0 of the Frontier list, which only grows. */
module Ledger {
  import opened Prelude
  import opened JsonValue

  datatype SnapshotKey = SnapshotKey(kind: string, payload: Json, epoch: nat, source: string)
  datatype HandleKey = HandleKey(kind: string, snapshotId: string, epoch: nat, offset: nat, pageSize: nat)
  datatype Naming = Naming(snapshot: SnapshotKey -> string, handle: HandleKey -> string,
                           snapshotOf: string -> SnapshotKey, handleOf: string -> HandleKey)

  datatype Handle = Handle(kind: string, snapshotId: string, epoch: nat, source: string, description: string,
                           pageSize: nat, offset: nat)
  datatype Snapshot = Snapshot(kind: string, payload: Json, epoch: nat, source: string, description: string)
  datatype FrontierStatus = Open | Consumed | Stale
  datatype Frontier = Frontier(handle: string, epoch: nat, source: string, count: nat, reason: string,
                               status: FrontierStatus, staleReason: Option<string>)

  datatype Ledger = Ledger(handles: map<string, Handle>, snapshots: map<string, Snapshot>, frontiers: seq<Frontier>)

  datatype LedgerError =
    | HandleNotFound | HandleStale | SnapshotNotFound
    | FrontierNotFound | FrontierStale | FrontierConsumed | FrontierUnavailable

  datatype Materialised = Materialised(payload: Json, start: nat, end: nat, total: nat, next: Option<string>) {
    predicate Complete() { end >= total }
    function Remaining(): nat { Max(0, total - end) }
  }

  const CONTINUE_OBSERVATION := "continue_observation"

  const EMPTY_LEDGER := Ledger(map[], map[], [])

  // ---- snapshots and handles -------------------------------------------------------------

  function SnapshotKeyOf(s: Snapshot): SnapshotKey {
    SnapshotKey(s.kind, s.payload, s.epoch, s.source)
  }

  function HandleKeyOf(h: Handle): HandleKey {
    HandleKey(h.kind, h.snapshotId, h.epoch, h.offset, h.pageSize)
  }

  /** At least one; zero asks for the default of twelve. */
  function PageSize(n: int): nat {
    if n == 0 then 12 else Max(1, n)
  }

  function RegisterHandle(naming: Naming, l: Ledger, h: Handle): (r: (Ledger, string)) {
    var id := naming.handle(HandleKeyOf(h));
    (l.(handles := l.handles[id := h]), id)
  }

  function RegisterSnapshot(naming: Naming, l: Ledger, kind: string, payload: Json, epoch: nat, source: string,
                            description: string, pageSize: int, offset: int): (Ledger, string)
  {
    var kind := if Strip(kind) == "" then "continuation" else Strip(kind);
    var id := naming.snapshot(SnapshotKey(kind, payload, epoch, source));
    var l1 := if id in l.snapshots then l
              else l.(snapshots := l.snapshots[id := Snapshot(kind, payload, epoch, source, description)]);
    RegisterHandle(naming, l1, Handle(kind, id, epoch, source, description, PageSize(pageSize), Max(0, offset)))
  }

  /** The items a payload is paged over, or None when it is delivered whole. */
  function Items(payload: Json): Option<seq<Json>> {
    match payload
    case JObject(members) =>
      if "items" in members && members["items"].JArray? then Some(members["items"].items) else None
    case JArray(items) => Some(items)
    case _ => None
  }

  function WithItems(payload: Json, items: seq<Json>): Json
    requires Items(payload).Some?
  {
    if payload.JArray? then JArray(items) else JObject(payload.members["items" := JArray(items)])
  }

  /** The requested page, with its start, its end and the total. */
  function Paged(payload: Json, offset: nat, pageSize: nat): (Json, nat, nat, nat)
    requires pageSize >= 1
  {
    if Items(payload).Some? then
      var items := Items(payload).value;
      var start: nat := Min(offset, |items|);
      var end: nat := Min(|items|, start + pageSize);
      (WithItems(payload, items[start..end]), start, end, |items|)
    else
      var n: nat := if payload.JNull? then 0 else 1;
      (payload, 0, n, n)
  }

  /** One page of a handle; an incomplete page registers the handle of the next. */
  function Materialise(naming: Naming, l: Ledger, id: string, epoch: nat): (Ledger, Result<Materialised, LedgerError>) {
    if id !in l.handles then (l, Err(HandleNotFound))
    else
      var h := l.handles[id];
      if h.epoch != epoch then (l, Err(HandleStale))
      else if h.snapshotId !in l.snapshots then (l, Err(SnapshotNotFound))
      else if l.snapshots[h.snapshotId].epoch != epoch then (l, Err(HandleStale))
      else
        var pageSize := PageSize(h.pageSize);
        var (payload, start, end, total) := Paged(l.snapshots[h.snapshotId].payload, h.offset, pageSize);
        if end >= total then (l, Ok(Materialised(payload, start, end, total, None)))
        else
          var (l1, next) := RegisterHandle(naming, l, h.(epoch := epoch, pageSize := pageSize, offset := end));
          (l1, Ok(Materialised(payload, start, end, total, Some(next))))
  }

  /** Drops a cursor, and its snapshot when no other cursor names it. */
  function Release(l: Ledger, id: string): Ledger {
    if id !in l.handles then l
    else
      var rest := l.handles - {id};
      var snapshotId := l.handles[id].snapshotId;
      Ledger(rest,
             if exists h :: h in rest && rest[h].snapshotId == snapshotId then l.snapshots
             else l.snapshots - {snapshotId},
             l.frontiers)
  }

  // ---- Frontiers -------------------------------------------------------------------------

  predicate IsOpen(l: Ledger, f: nat) {
    f < |l.frontiers| && l.frontiers[f].status == Open
  }

  predicate Holds(l: Ledger, f: nat, handle: string) {
    IsOpen(l, f) && l.frontiers[f].handle == handle
  }

  /** The first open Frontier of a handle at or after a position, or the length of the list. */
  function FindOpen(l: Ledger, handle: string, from: nat): (f: nat)
    requires from <= |l.frontiers|
    ensures from <= f <= |l.frontiers|
    ensures f < |l.frontiers| ==> Holds(l, f, handle)
    ensures forall i :: from <= i < f ==> !Holds(l, i, handle)
    decreases |l.frontiers| - from
  {
    if from == |l.frontiers| || Holds(l, from, handle) then from else FindOpen(l, handle, from + 1)
  }

  /** Publishes a handle: the open Frontier that already holds it, or a new one. */
  function Expose(l: Ledger, handle: string, epoch: nat, source: string, count: nat, reason: string): (Ledger, nat) {
    var f := FindOpen(l, handle, 0);
    if f < |l.frontiers| then (l, f)
    else (l.(frontiers := l.frontiers + [Frontier(handle, epoch, source, count, reason, Open, None)]), f)
  }

  function Resolve(l: Ledger, f: nat, epoch: nat): Result<string, LedgerError> {
    if f >= |l.frontiers| then Err(FrontierNotFound)
    else
      var item := l.frontiers[f];
      if item.status == Stale then Err(FrontierStale)
      else if item.status != Open then Err(FrontierConsumed)
      else if item.epoch != epoch then Err(FrontierStale)
      else if item.handle == "" then Err(FrontierUnavailable)
      else Ok(item.handle)
  }

  function Consume(l: Ledger, f: nat): Ledger {
    if f >= |l.frontiers| then l
    else Release(l.(frontiers := l.frontiers[f := l.frontiers[f].(status := Consumed)]), l.frontiers[f].handle)
  }

  function MarkStale(l: Ledger, f: nat, reason: string): Ledger {
    if f >= |l.frontiers| then l
    else
      Release(l.(frontiers := l.frontiers[f := l.frontiers[f].(status := Stale, staleReason := Some(reason))]),
              l.frontiers[f].handle)
  }

  /** A continuation refused because its source was revised: the page's next handle is released and the
      Frontier becomes stale. */
  function Reject(naming: Naming, l: Ledger, f: nat, epoch: nat, reason: string): Ledger
    requires IsOpen(l, f)
  {
    var (l1, page) := Materialise(naming, l, l.frontiers[f].handle, epoch);
    if page.Err? then l1
    else if page.value.next.Some? then MarkStale(Release(l1, page.value.next.value), f, reason)
    else MarkStale(l1, f, reason)
  }

  /** The generic continuation: the page is read, its Frontier consumed and the next page published; `revised` says
      the provider reports a changed source. */
  function ContinueObservation(naming: Naming, l: Ledger, epoch: nat, f: nat, revised: bool): Ledger {
    var resolved := Resolve(l, f, epoch);
    if resolved.Err? then l
    else
      var (l1, page) := Materialise(naming, l, resolved.value, epoch);
      if page.Err? then l1
      else if revised then Reject(naming, l, f, epoch, "source_revision_changed")
      else
        var l2 := Consume(l1, f);
        if page.value.next.Some? then Expose(l2, page.value.next.value, epoch, CONTINUE_OBSERVATION,
                                             page.value.Remaining(), "continuation").0
        else l2
  }

  // ---- the ledger object -----------------------------------------------------------------

  class ObservationLedger {
    var handles: map<string, Handle>
    var snapshots: map<string, Snapshot>
    var frontiers: seq<Frontier>
    const naming: Naming

    constructor (naming: Naming)
      ensures State() == EMPTY_LEDGER
    {
      this.naming := naming;
      handles, snapshots, frontiers := map[], map[], [];
    }

    ghost function State(): Ledger
      reads this
    {
      Ledger(handles, snapshots, frontiers)
    }

    method RegisterCursor(h: Handle) returns (id: string)
      modifies `handles
      ensures (State(), id) == RegisterHandle(naming, old(State()), h)
    {
      id := naming.handle(HandleKeyOf(h));
      handles := handles[id := h];
    }

    method RegisterSnapshotHandle(kind: string, payload: Json, epoch: nat, source: string, description: string,
                                  pageSize: int, offset: int) returns (id: string)
      modifies `handles, `snapshots
      ensures (State(), id) == RegisterSnapshot(naming, old(State()), kind, payload, epoch, source, description,
                                                pageSize, offset)
    {
      var name := if Strip(kind) == "" then "continuation" else Strip(kind);
      var snapshotId := naming.snapshot(SnapshotKey(name, payload, epoch, source));
      if snapshotId !in snapshots {
        snapshots := snapshots[snapshotId := Snapshot(name, payload, epoch, source, description)];
      }
      id := RegisterCursor(Handle(name, snapshotId, epoch, source, description, PageSize(pageSize), Max(0, offset)));
    }

    method MaterialiseHandle(id: string, epoch: nat) returns (page: Result<Materialised, LedgerError>)
      modifies `handles
      ensures (State(), page) == Materialise(naming, old(State()), id, epoch)
    {
      if id !in handles {
        return Err(HandleNotFound);
      }
      var h := handles[id];
      if h.epoch != epoch {
        return Err(HandleStale);
      }
      if h.snapshotId !in snapshots {
        return Err(SnapshotNotFound);
      }
      var snapshot := snapshots[h.snapshotId];
      if snapshot.epoch != epoch {
        return Err(HandleStale);
      }
      var pageSize := PageSize(h.pageSize);
      var (payload, start, end, total) := Paged(snapshot.payload, h.offset, pageSize);
      var next: Option<string> := None;
      if end < total {
        var registered := RegisterCursor(h.(epoch := epoch, pageSize := pageSize, offset := end));
        next := Some(registered);
      }
      return Ok(Materialised(payload, start, end, total, next));
    }

    method ReleaseHandle(id: string)
      modifies `handles, `snapshots
      ensures State() == Release(old(State()), id)
    {
      if id in handles {
        var snapshotId := handles[id].snapshotId;
        handles := handles - {id};
        if !exists h :: h in handles && handles[h].snapshotId == snapshotId {
          snapshots := snapshots - {snapshotId};
        }
      }
    }

    method ExposeHandle(handle: string, epoch: nat, source: string, count: nat, reason: string) returns (f: nat)
      modifies `frontiers
      ensures (State(), f) == Expose(old(State()), handle, epoch, source, count, reason)
    {
      f := 0;
      while f < |frontiers| && !(frontiers[f].status == Open && frontiers[f].handle == handle)
        invariant f <= |frontiers| && FindOpen(State(), handle, 0) == FindOpen(State(), handle, f)
      {
        f := f + 1;
      }
      if f == |frontiers| {
        frontiers := frontiers + [Frontier(handle, epoch, source, count, reason, Open, None)];
      }
    }

    method ConsumeFrontier(f: nat)
      modifies this
      ensures State() == Consume(old(State()), f)
    {
      if f < |frontiers| {
        frontiers := frontiers[f := frontiers[f].(status := Consumed)];
        ReleaseHandle(frontiers[f].handle);
      }
    }

    method StaleFrontier(f: nat, reason: string)
      modifies this
      ensures State() == MarkStale(old(State()), f, reason)
    {
      if f < |frontiers| {
        frontiers := frontiers[f := frontiers[f].(status := Stale, staleReason := Some(reason))];
        ReleaseHandle(frontiers[f].handle);
      }
    }
  }
}
