/** A pending session as it is written to disk, restored, and what the collection of orphaned recall snapshots
    between the two leaves alone. */
module Persistence {
  import opened FrontierIds
  import opened JsonValue
  import opened Ledger
  import opened MemoryGraph
  import opened Navigation
  import opened Prelude
  import opened RecallSelection

  /** The part of a session that its navigation needs. */
  datatype Session = Session(ledger: Ledger, epoch: nat, view: View)

  // ---- records ---------------------------------------------------------------------------

  function EncodeHandle(id: string, h: Handle): Json {
    JObject(map["id" := JString(id), "kind" := JString(h.kind), "snapshot_id" := JString(h.snapshotId),
                "reality_epoch" := JNumber(h.epoch), "source_capability" := JString(h.source),
                "description" := JString(h.description),
                "page_size" := JNumber(h.pageSize), "offset" := JNumber(h.offset)])
  }

  function NatAt(members: map<string, Json>, key: string): nat {
    if key in members && members[key].JNumber? && members[key].number > 0 then members[key].number else 0
  }

  function DecodeHandle(v: Json): Option<Handle> {
    if !v.JObject? then None
    else
      var m := v.members;
      Some(Handle(TextAt(m, "kind"), TextAt(m, "snapshot_id"), NatAt(m, "reality_epoch"),
                  TextAt(m, "source_capability"),
                  TextAt(m, "description"), NatAt(m, "page_size"), NatAt(m, "offset")))
  }

  /** A null payload is one of the fields that are dropped. */
  function EncodeSnapshot(id: string, s: Snapshot): Json {
    var m := map["id" := JString(id), "kind" := JString(s.kind), "reality_epoch" := JNumber(s.epoch),
                 "source_capability" := JString(s.source), "description" := JString(s.description)];
    JObject(if s.payload == JNull then m else m["payload" := s.payload])
  }

  function DecodeSnapshot(v: Json): Option<Snapshot> {
    if !v.JObject? then None
    else
      var m := v.members;
      Some(Snapshot(TextAt(m, "kind"), if "payload" in m then m["payload"] else JNull, NatAt(m, "reality_epoch"),
                    TextAt(m, "source_capability"), TextAt(m, "description")))
  }

  function StatusText(s: FrontierStatus): string {
    match s
    case Open => "open"
    case Consumed => "consumed"
    case Stale => "stale"
  }

  function EncodeFrontier(id: string, f: Frontier): Json {
    var m := map["id" := JString(id), "handle" := JString(f.handle), "reality_epoch" := JNumber(f.epoch),
                 "source_capability" := JString(f.source), "reason" := JString(f.reason), "count" := JNumber(f.count),
                 "status" := JString(StatusText(f.status))];
    JObject(if f.staleReason.None? then m else m["stale_reason" := JString(f.staleReason.value)])
  }

  function DecodeFrontier(v: Json): Option<Frontier> {
    if !v.JObject? then None
    else
      var m := v.members;
      var status := TextAt(m, "status");
      Some(Frontier(TextAt(m, "handle"), NatAt(m, "reality_epoch"), TextAt(m, "source_capability"), NatAt(m, "count"),
                    TextAt(m, "reason"),
                    if status == "open" then Open else if status == "stale" then Stale else Consumed,
                    if "stale_reason" in m then Some(TextAt(m, "stale_reason")) else None))
  }

  lemma HandleRoundTrip(id: string, h: Handle)
    ensures DecodeHandle(EncodeHandle(id, h)) == Some(h)
  {
  }

  lemma SnapshotRoundTrip(id: string, s: Snapshot)
    ensures DecodeSnapshot(EncodeSnapshot(id, s)) == Some(s)
  {
  }

  lemma FrontierRoundTrip(id: string, f: Frontier)
    ensures DecodeFrontier(EncodeFrontier(id, f)) == Some(f)
  {
  }

  // ---- stores ----------------------------------------------------------------------------

  type Encoder<!T> = (string, T) -> Json
  type Decoder<!T> = Json -> Option<T>

  ghost predicate Inverse<T(!new)>(encode: Encoder<T>, decode: Decoder<T>) {
    forall id, x :: decode(encode(id, x)) == Some(x)
  }

  ghost predicate Injective(name: nat -> string) {
    forall i: nat, j: nat :: name(i) == name(j) ==> i == j
  }

  /** A store keyed by ids becomes an object. */
  function EncodeStore<T>(store: map<string, T>, encode: Encoder<T>): map<string, Json> {
    map id | id in store :: encode(id, store[id])
  }

  function DecodeStore<T>(m: map<string, Json>, decode: Decoder<T>): Option<map<string, T>> {
    if forall id :: id in m ==> decode(m[id]).Some? then Some(map id | id in m :: decode(m[id]).value) else None
  }

  /** A list becomes an object keyed by the names of its positions. */
  function EncodeList<T>(list: seq<T>, name: nat -> string, encode: Encoder<T>): map<string, Json> {
    if list == [] then map[]
    else
      var n := |list| - 1;
      EncodeList(list[..n], name, encode)[name(n) := encode(name(n), list[n])]
  }

  predicate Decodable<T>(m: map<string, Json>, id: string, decode: Decoder<T>) {
    id in m && decode(m[id]).Some?
  }

  function DecodeList<T>(m: map<string, Json>, name: nat -> string, decode: Decoder<T>): Option<seq<T>> {
    if forall i: nat :: i < |m| ==> Decodable(m, name(i), decode) then
      Some(seq(|m|, i requires 0 <= i < |m| && Decodable(m, name(i), decode) => decode(m[name(i)]).value))
    else None
  }

  lemma StoreRoundTrip<T(!new)>(store: map<string, T>, encode: Encoder<T>, decode: Decoder<T>)
    requires Inverse(encode, decode)
    ensures DecodeStore(EncodeStore(store, encode), decode) == Some(store)
  {
    var m := EncodeStore(store, encode);
    assert (map id | id in m :: decode(m[id]).value) == store;
  }

  lemma {:induction false} EncodedList<T>(list: seq<T>, name: nat -> string, encode: Encoder<T>)
    requires Injective(name)
    ensures var m := EncodeList(list, name, encode);
            && |m| == |list|
            && (forall i: nat :: name(i) in m <==> i < |list|)
            && (forall i: nat :: i < |list| ==> m[name(i)] == encode(name(i), list[i]))
    decreases |list|
  {
    if list != [] {
      EncodedList(list[..|list| - 1], name, encode);
    }
  }

  lemma ListRoundTrip<T(!new)>(list: seq<T>, name: nat -> string, encode: Encoder<T>, decode: Decoder<T>)
    requires Inverse(encode, decode) && Injective(name)
    ensures DecodeList(EncodeList(list, name, encode), name, decode) == Some(list)
  {
    EncodedList(list, name, encode);
    var m := EncodeList(list, name, encode);
    assert forall i: nat :: i < |m| ==> Decodable(m, name(i), decode) && decode(m[name(i)]) == Some(list[i]);
    var decoded := DecodeList(m, name, decode);
    assert decoded.Some? && |decoded.value| == |list|;
    forall i | 0 <= i < |list|
      ensures decoded.value[i] == list[i]
    {
      assert Decodable(m, name(i), decode) && decode(m[name(i)]) == Some(list[i]);
    }
    assert decoded.value == list;
  }

  lemma Inverses()
    ensures Inverse(EncodeHandle, DecodeHandle)
    ensures Inverse(EncodeSnapshot, DecodeSnapshot)
    ensures Inverse(EncodeFrontier, DecodeFrontier)
  {
    forall id, h
      ensures DecodeHandle(EncodeHandle(id, h)) == Some(h)
    {
      HandleRoundTrip(id, h);
    }
    forall id, x
      ensures DecodeSnapshot(EncodeSnapshot(id, x)) == Some(x)
    {
      SnapshotRoundTrip(id, x);
    }
    forall id, f
      ensures DecodeFrontier(EncodeFrontier(id, f)) == Some(f)
    {
      FrontierRoundTrip(id, f);
    }
  }

  lemma FrontierIdsInjective()
    ensures Injective(FrontierId)
  {
    forall i: nat, j: nat | FrontierId(i) == FrontierId(j)
      ensures i == j
    {
      IdValue(i);
      IdValue(j);
    }
  }

  // ---- lists of texts --------------------------------------------------------------------

  predicate NotBlank(s: string) {
    Strip(s) != ""
  }

  /** The kept texts of a list; None when some entry is not a text. */
  function Texts(items: seq<Json>, keep: string -> bool): Option<seq<string>> {
    if items == [] then Some([])
    else
      var rest := Texts(items[1..], keep);
      if !items[0].JString? || rest.None? then None
      else Some((if keep(items[0].text) then [items[0].text] else []) + rest.value)
  }

  function TextList(texts: seq<string>): seq<Json> {
    if texts == [] then [] else [JString(texts[0])] + TextList(texts[1..])
  }

  lemma {:induction false} TextsRoundTrip(texts: seq<string>, keep: string -> bool)
    requires forall i :: 0 <= i < |texts| ==> keep(texts[i])
    ensures Texts(TextList(texts), keep) == Some(texts)
  {
    if texts != [] {
      TextsRoundTrip(texts[1..], keep);
      assert TextList(texts)[1..] == TextList(texts[1..]);
      assert texts == [texts[0]] + texts[1..];
    }
  }

  function NameAll(positions: seq<nat>, name: nat -> string): seq<string> {
    if positions == [] then [] else [name(positions[0])] + NameAll(positions[1..], name)
  }

  function Positions(ids: seq<string>, position: string -> Option<nat>): Option<seq<nat>> {
    if ids == [] then Some([])
    else
      var rest := Positions(ids[1..], position);
      if position(ids[0]).None? || rest.None? then None else Some([position(ids[0]).value] + rest.value)
  }

  lemma {:induction false} PositionsRoundTrip(positions: seq<nat>, name: nat -> string, position: string -> Option<nat>,
                                              keep: string -> bool)
    requires forall i: nat :: position(name(i)) == Some(i) && keep(name(i))
    ensures Positions(NameAll(positions, name), position) == Some(positions)
    ensures forall i :: 0 <= i < |NameAll(positions, name)| ==> keep(NameAll(positions, name)[i])
  {
    if positions != [] {
      PositionsRoundTrip(positions[1..], name, position, keep);
      assert NameAll(positions, name)[1..] == NameAll(positions[1..], name);
      assert positions == [positions[0]] + positions[1..];
    }
  }

  function PositionOf(id: string): Option<nat> {
    if Numeric(id) then Position(ValueOf(id[3..]), id) else None
  }

  lemma IdsStand()
    ensures forall i: nat :: PositionOf(FrontierId(i)) == Some(i) && NotBlank(FrontierId(i))
  {
    forall i: nat
      ensures PositionOf(FrontierId(i)) == Some(i) && NotBlank(FrontierId(i))
    {
      IdValue(i);
      PositionIsExact(i + 1, FrontierId(i), i);
      StoredLeadsHome(i + 1, i);
    }
  }

  // ---- the session -----------------------------------------------------------------------

  /** The names of the members a serialised session, its ledger and its view hold beside the modelled ones. */
  datatype Schema = Schema(version: Json, session: set<string>, ledger: set<string>, view: set<string>)

  const SCHEMA := Schema(
    JString("2.7.5-r4.0.0-ecc"),
    {"session_schema_version", "request", "execution_id", "turn", "evidence", "runtime_feedback", "pending_operation",
     "execution_progress", "active_task_id", "cognitive_surface"},
    {"entries", "events", "replay_count", "pending_results", "materials"},
    {"coverage", "selector", "overview"})

  /** Those other members, carried along unread. */
  datatype Extras = Extras(session: map<string, Json>, ledger: map<string, Json>, view: map<string, Json>)

  predicate Disjoint(schema: Schema) {
    && schema.session !! {"reality_epoch", "observation_ledger", "memory_view"}
       && "session_schema_version" in schema.session
    && schema.ledger !! {"handles", "snapshots", "frontiers"}
    && schema.view !! {"node_ids", "frontiers"}
  }

  lemma SchemaIsDisjoint()
    ensures Disjoint(SCHEMA)
  {
  }

  predicate Complete(schema: Schema, e: Extras) {
    && e.session.Keys == schema.session && "session_schema_version" in e.session
       && e.session["session_schema_version"] == schema.version
    && e.ledger.Keys == schema.ledger
    && e.view.Keys == schema.view && forall key :: key in e.view ==> e.view[key].JObject?
  }

  function EncodeLedger(l: Ledger, rest: map<string, Json>): Json {
    JObject(rest["handles" := JObject(EncodeStore(l.handles, EncodeHandle))]
                ["snapshots" := JObject(EncodeStore(l.snapshots, EncodeSnapshot))]
                ["frontiers" := JObject(EncodeList(l.frontiers, FrontierId, EncodeFrontier))])
  }

  function DecodeLedger(v: Json, others: set<string>): Option<Ledger> {
    if v.JObject? && v.members.Keys == others + {"handles", "snapshots", "frontiers"}
       && v.members["handles"].JObject? && v.members["snapshots"].JObject? && v.members["frontiers"].JObject? then
      var handles := DecodeStore(v.members["handles"].members, DecodeHandle);
      var snapshots := DecodeStore(v.members["snapshots"].members, DecodeSnapshot);
      var frontiers := DecodeList(v.members["frontiers"].members, FrontierId, DecodeFrontier);
      if handles.Some? && snapshots.Some? && frontiers.Some?
      then Some(Ledger(handles.value, snapshots.value, frontiers.value))
      else None
    else None
  }

  function EncodeView(v: View, rest: map<string, Json>): Json {
    JObject(rest["node_ids" := JArray(TextList(v.nodes))]
                ["frontiers" := JArray(TextList(NameAll(v.frontiers, FrontierId)))])
  }

  function DecodeView(v: Json, others: set<string>): Option<View> {
    if v.JObject? && v.members.Keys == others + {"node_ids", "frontiers"}
       && v.members["node_ids"].JArray? && v.members["frontiers"].JArray?
       && forall key :: key in others && key in v.members ==> v.members[key].JObject? then
      var nodes := Texts(v.members["node_ids"].items, NotBlank);
      var ids := Texts(v.members["frontiers"].items, NotBlank);
      if nodes.Some? && ids.Some? && Positions(ids.value, PositionOf).Some? then
        Some(View(nodes.value, Positions(ids.value, PositionOf).value))
      else None
    else None
  }

  function EncodeSession(s: Session, e: Extras): Json {
    JObject(e.session["reality_epoch" := JNumber(s.epoch)]["observation_ledger" := EncodeLedger(s.ledger, e.ledger)]
                     ["memory_view" := EncodeView(s.view, e.view)])
  }

  /** Restoring refuses any other schema version, key set or negative epoch. */
  function DecodeSession(schema: Schema, v: Json): Option<Session> {
    if v.JObject? && v.members.Keys == schema.session + {"reality_epoch", "observation_ledger", "memory_view"}
       && "session_schema_version" in v.members && v.members["session_schema_version"] == schema.version
       && v.members["reality_epoch"].JNumber? && v.members["reality_epoch"].number >= 0 then
      var l := DecodeLedger(v.members["observation_ledger"], schema.ledger);
      var view := DecodeView(v.members["memory_view"], schema.view);
      if l.Some? && view.Some? then Some(Session(l.value, v.members["reality_epoch"].number, view.value)) else None
    else None
  }

  lemma LedgerParts(l: Ledger, rest: map<string, Json>, others: set<string>,
                    handles: map<string, Json>, snapshots: map<string, Json>, frontiers: map<string, Json>)
    requires rest.Keys == others && others !! {"handles", "snapshots", "frontiers"}
    requires DecodeStore(handles, DecodeHandle) == Some(l.handles)
    requires DecodeStore(snapshots, DecodeSnapshot) == Some(l.snapshots)
    requires DecodeList(frontiers, FrontierId, DecodeFrontier) == Some(l.frontiers)
    ensures DecodeLedger(JObject(rest["handles" := JObject(handles)]["snapshots" := JObject(snapshots)]
                                     ["frontiers" := JObject(frontiers)]), others) == Some(l)
  {
  }

  lemma LedgerRoundTrip(l: Ledger, rest: map<string, Json>, others: set<string>)
    requires rest.Keys == others && others !! {"handles", "snapshots", "frontiers"}
    ensures DecodeLedger(EncodeLedger(l, rest), others) == Some(l)
  {
    Inverses();
    FrontierIdsInjective();
    StoreRoundTrip(l.handles, EncodeHandle, DecodeHandle);
    StoreRoundTrip(l.snapshots, EncodeSnapshot, DecodeSnapshot);
    ListRoundTrip(l.frontiers, FrontierId, EncodeFrontier, DecodeFrontier);
    LedgerParts(l, rest, others, EncodeStore(l.handles, EncodeHandle), EncodeStore(l.snapshots, EncodeSnapshot),
                EncodeList(l.frontiers, FrontierId, EncodeFrontier));
  }

  lemma ViewRoundTrip(v: View, rest: map<string, Json>, others: set<string>)
    requires forall i :: 0 <= i < |v.nodes| ==> NotBlank(v.nodes[i])
    requires rest.Keys == others && others !! {"node_ids", "frontiers"}
    requires forall key :: key in rest ==> rest[key].JObject?
    ensures DecodeView(EncodeView(v, rest), others) == Some(v)
  {
    TextsRoundTrip(v.nodes, NotBlank);
    IdsStand();
    PositionsRoundTrip(v.frontiers, FrontierId, PositionOf, NotBlank);
    TextsRoundTrip(NameAll(v.frontiers, FrontierId), NotBlank);
  }

  lemma SessionParts(schema: Schema, s: Session, rest: map<string, Json>, ledger: Json, view: Json)
    requires Disjoint(schema) && rest.Keys == schema.session && rest["session_schema_version"] == schema.version
    requires DecodeLedger(ledger, schema.ledger) == Some(s.ledger) && DecodeView(view, schema.view) == Some(s.view)
    ensures DecodeSession(schema, JObject(rest["reality_epoch" := JNumber(s.epoch)]["observation_ledger" := ledger]
                                              ["memory_view" := view])) == Some(s)
  {
  }

  lemma SchemaRoundTrip(schema: Schema, s: Session, e: Extras)
    requires Disjoint(schema) && Complete(schema, e)
    requires forall i :: 0 <= i < |s.view.nodes| ==> NotBlank(s.view.nodes[i])
    ensures DecodeSession(schema, EncodeSession(s, e)) == Some(s)
  {
    LedgerRoundTrip(s.ledger, e.ledger, schema.ledger);
    ViewRoundTrip(s.view, e.view, schema.view);
    SessionParts(schema, s, e.session, EncodeLedger(s.ledger, e.ledger), EncodeView(s.view, e.view));
  }

  /** Restoring a serialised session gives back its ledger, its epoch and its view unchanged. */
  lemma SessionRoundTrip(s: Session, e: Extras)
    requires Complete(SCHEMA, e) && forall i :: 0 <= i < |s.view.nodes| ==> NotBlank(s.view.nodes[i])
    ensures DecodeSession(SCHEMA, EncodeSession(s, e)) == Some(s)
  {
    SchemaIsDisjoint();
    SchemaRoundTrip(SCHEMA, s, e);
  }
}
