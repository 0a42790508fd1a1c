/** JSON values as the runtime persists them. */
module JsonValue {
  import opened Prelude

  datatype Json =
    | JNull
    | JBool(flag: bool)
    | JNumber(number: int)
    | JString(text: string)
    | JArray(items: seq<Json>)
    | JObject(members: map<string, Json>)
  {
    predicate Has(key: string) {
      JObject? && key in members
    }
  }

  // ---- what a recursive scan can find ----------------------------------------------------

  /** One step from a value to a part of it. */
  datatype Step = Member(key: string) | Element(index: nat)

  /** The part of `v` at the end of a path, if the path exists. */
  function At(v: Json, path: seq<Step>): Option<Json>
    decreases |path|
  {
    if path == [] then Some(v)
    else
      match path[0]
      case Member(key) => if v.JObject? && key in v.members then At(v.members[key], path[1..]) else None
      case Element(i) => if v.JArray? && i < |v.items| then At(v.items[i], path[1..]) else None
  }

  /** `id` stands, up to blanks, under the key "snapshot_id" somewhere inside `v`, at any depth. */
  ghost predicate Mentions(v: Json, id: string) {
    exists path :: MentionedAt(v, path, id)
  }

  predicate MentionedAt(v: Json, path: seq<Step>, id: string) {
    && |path| > 0
    && path[|path| - 1] == Member("snapshot_id")
    && At(v, path).Some? && At(v, path).value.JString?
    && Strip(At(v, path).value.text) == id != ""
  }

  /** What the scan takes from the member `key` of an object. */
  function FromMember(key: string, v: Json): set<string>
    decreases v, 1
  {
    if key == "snapshot_id" && v.JString? && Strip(v.text) != "" then {Strip(v.text)} else SnapshotIds(v)
  }

  /** What the scan collects from a value. */
  function SnapshotIds(v: Json): set<string>
    decreases v, 0
  {
    match v
    case JObject(members) => set key, id | key in members && id in FromMember(key, members[key]) :: id
    case JArray(items) => set i, id | 0 <= i < |items| && id in SnapshotIds(items[i]) :: id
    case _ => {}
  }

  lemma AtStep(v: Json, step: Step, rest: seq<Step>)
    ensures At(v, [step] + rest) ==
            match step
            case Member(key) => (if v.JObject? && key in v.members then At(v.members[key], rest) else None)
            case Element(i) => if v.JArray? && i < |v.items| then At(v.items[i], rest) else None
  {
    assert ([step] + rest)[1..] == rest;
  }

  lemma MentionDeeper(v: Json, step: Step, part: Json, id: string)
    requires At(v, [step]) == Some(part) && Mentions(part, id)
    ensures Mentions(v, id)
  {
    var path :| MentionedAt(part, path, id);
    AtStep(v, step, []);
    AtStep(v, step, path);
    assert ([step] + path)[|[step] + path| - 1] == path[|path| - 1];
    assert MentionedAt(v, [step] + path, id);
  }

  lemma {:induction false} FoundIsMentioned(v: Json, id: string)
    requires id in SnapshotIds(v)
    ensures Mentions(v, id)
  {
    match v
    case JObject(members) =>
      var key :| key in members && id in FromMember(key, members[key]);
      AtStep(v, Member(key), []);
      if key == "snapshot_id" && members[key].JString? && Strip(members[key].text) != "" {
        assert MentionedAt(v, [Member(key)], id);
      } else {
        FoundIsMentioned(members[key], id);
        MentionDeeper(v, Member(key), members[key], id);
      }
    case JArray(items) =>
      var i :| 0 <= i < |items| && id in SnapshotIds(items[i]);
      AtStep(v, Element(i), []);
      FoundIsMentioned(items[i], id);
      MentionDeeper(v, Element(i), items[i], id);
    case _ =>
  }

  lemma {:induction false} MentionedIsFound(v: Json, path: seq<Step>, id: string)
    requires MentionedAt(v, path, id)
    ensures id in SnapshotIds(v)
    decreases |path|
  {
    assert path == [path[0]] + path[1..];
    AtStep(v, path[0], path[1..]);
    match path[0]
    case Member(key) =>
      if |path| > 1 {
        var part := v.members[key];
        MentionedIsFound(part, path[1..], id);
        assert !part.JString?;
      }
      assert id in FromMember(key, v.members[key]);
    case Element(i) =>
      MentionedIsFound(v.items[i], path[1..], id);
  }

  /** The scan finds exactly the snapshot ids mentioned at any depth. */
  lemma ScanIsExact(v: Json, id: string)
    ensures id in SnapshotIds(v) <==> Mentions(v, id)
  {
    if id in SnapshotIds(v) {
      FoundIsMentioned(v, id);
    }
    if Mentions(v, id) {
      var path :| MentionedAt(v, path, id);
      MentionedIsFound(v, path, id);
    }
  }

  function FromKeys(members: map<string, Json>, keys: set<string>): set<string> {
    set key, id | key in keys && key in members && id in FromMember(key, members[key]) :: id
  }

  lemma FromKeysAdd(members: map<string, Json>, keys: set<string>, key: string)
    requires key in members
    ensures FromKeys(members, keys + {key}) == FromKeys(members, keys) + FromMember(key, members[key])
  {
  }

  function FromItems(items: seq<Json>, n: nat): set<string>
    requires n <= |items|
  {
    set k, id | 0 <= k < n && id in SnapshotIds(items[k]) :: id
  }

  lemma FromItemsAdd(items: seq<Json>, i: nat)
    requires i < |items|
    ensures FromItems(items, i + 1) == FromItems(items, i) + SnapshotIds(items[i])
  {
  }

  /** The recursive scan of a pending session, adding to the set it is given. */
  method Scan(v: Json, found: set<string>) returns (all: set<string>)
    ensures all == found + SnapshotIds(v)
    decreases v
  {
    all := found;
    match v
    case JObject(members) =>
      var rest := members.Keys;
      while rest != {}
        invariant rest <= members.Keys
        invariant all == found + FromKeys(members, members.Keys - rest)
        decreases |rest|
      {
        var key :| key in rest;
        var part := members[key];
        if key == "snapshot_id" && part.JString? && Strip(part.text) != "" {
          all := all + {Strip(part.text)};
        } else {
          all := Scan(part, all);
        }
        FromKeysAdd(members, members.Keys - rest, key);
        assert members.Keys - (rest - {key}) == members.Keys - rest + {key};
        rest := rest - {key};
      }
      assert FromKeys(members, members.Keys - rest) == SnapshotIds(v);
    case JArray(items) =>
      for i := 0 to |items|
        invariant all == found + FromItems(items, i)
      {
        all := Scan(items[i], all);
        FromItemsAdd(items, i);
      }
      assert FromItems(items, |items|) == SnapshotIds(v);
    case _ =>
  }
}
