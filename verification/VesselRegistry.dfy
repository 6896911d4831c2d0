/**
 Registering, unregistering and updating Vessels (vessel_service.py). Every call loads
 both registry files, changes its list of records and saves it; for each path they
 refine a plain record that only the calls on that path change.
 */
module VesselRegistry {
  import opened Wrappers
  import opened Registry
  import opened Settled
  import opened Migration
  import opened LegacyMigration

  /** The fields a call sets; None leaves a field alone. */
  datatype Change = Change(isOpen: Option<bool>, count: bool, caption: Option<string>, captions: Option<seq<string>>,
                           faces: Option<seq<Json>>, active: Option<string>)

  datatype Kind = Register | Unregister | Update(change: Change)

  /** One call: its path and clock, and the keys it would draw. */
  datatype Op = Op(path: string, now: string, kind: Kind, newKey: string, saveKey: string)

  function Opened(env: Env, now: string, record: Dict, c: Change): Dict {
    if c.isOpen.None? then record
    else
      var marked := record["is_open" := B(c.isOpen.value)];
      if !c.isOpen.value then marked["last_closed_at" := S(now)]
      else
        var stamped := marked["last_opened_at" := S(now)];
        if c.count then stamped["open_count" := I(IntValue(env, Get(record, "open_count", I(0))) + 1)] else stamped
  }

  function Captioned(record: Dict, c: Change): Dict {
    var titled := if c.caption.Some? then record["label" := S(c.caption.value)] else record;
    if c.captions.None? then titled
    else
      var captions := c.captions.value;
      titled["face_labels" := L(seq(|captions|, i requires 0 <= i < |captions| => S(captions[i])))]
  }

  function Refaced(env: Env, now: string, record: Dict, c: Change): Dict {
    if c.faces.None? then record
    else
      var faces := NormalizeFaces(env, now, Faces(env, c.faces.value));
      record["faces" := AsJson(faces)]["face_labels" := L(Labels(env, faces))]
            ["dummy_profile" := D(Aggregate(env, faces))]
  }

  /** The record after the call's assignments, in their order. */
  function Changed(env: Env, now: string, record: Dict, c: Change): Dict {
    var faced := Refaced(env, now, Captioned(Opened(env, now, record, c), c), c);
    if c.active.Some? then faced["active_face_id" := S(c.active.value)] else faced
  }

  // ---- what an update sets ----

  predicate SameAt(before: Dict, after: Dict, key: string) {
    (key in before <==> key in after) && (key in before ==> after[key] == before[key])
  }

  /** Outside the given keys nothing is set, changed or dropped. */
  predicate KeepsOthers(before: Dict, after: Dict, keys: set<string>) {
    before - keys == after - keys
  }

  lemma Kept(before: Dict, after: Dict, keys: set<string>, key: string)
    requires KeepsOthers(before, after, keys) && key !in keys
    ensures SameAt(before, after, key)
  {
    assert key in before <==> key in before - keys;
    assert key in after <==> key in after - keys;
  }

  lemma KeepsThrough(a: Dict, b: Dict, c: Dict, first: set<string>, second: set<string>)
    requires KeepsOthers(a, b, first) && KeepsOthers(b, c, second)
    ensures KeepsOthers(a, c, first + second)
  {
    assert a - (first + second) == (a - first) - second == (b - first) - second == b - (first + second);
    assert b - (first + second) == (b - second) - first == (c - second) - first == c - (first + second);
  }

  const OPENING_KEYS := {"is_open", "last_opened_at", "last_closed_at", "open_count"}
  const FACE_KEYS := {"label", "active_face_id", "faces", "face_labels", "dummy_profile"}

  /** Opening and closing: the flag, its own stamp, and the count, each set exactly when asked for. */
  predicate SetsOpening(env: Env, now: string, before: Dict, after: Dict, c: Change) {
    && (if c.isOpen.Some? then "is_open" in after && after["is_open"] == B(c.isOpen.value)
        else SameAt(before, after, "is_open"))
    && (if c.isOpen == Some(true) then "last_opened_at" in after && after["last_opened_at"] == S(now)
        else SameAt(before, after, "last_opened_at"))
    && (if c.isOpen == Some(false) then "last_closed_at" in after && after["last_closed_at"] == S(now)
        else SameAt(before, after, "last_closed_at"))
    && (if c.isOpen == Some(true) && c.count
        then "open_count" in after && after["open_count"].I? && after["open_count"].n == 1 + CountOf(env, before)
        else SameAt(before, after, "open_count"))
  }

  function CountOf(env: Env, record: Dict): int {
    if "open_count" in record then IntValue(env, record["open_count"]) else 0
  }

  /** Captions, faces with what is derived from them, and the active id, each set exactly when passed. */
  ghost predicate SetsFaces(env: Env, now: string, before: Dict, after: Dict, c: Change) {
    && (if c.caption.Some? then "label" in after && after["label"] == S(c.caption.value)
        else SameAt(before, after, "label"))
    && (if c.active.Some? then "active_face_id" in after && after["active_face_id"] == S(c.active.value)
        else SameAt(before, after, "active_face_id"))
    && (if c.faces.None? then SameAt(before, after, "faces") && SameAt(before, after, "dummy_profile")
        else
          var faces := NormalizeFaces(env, now, Faces(env, c.faces.value));
          && {"faces", "face_labels", "dummy_profile"} <= after.Keys
          && after["faces"] == AsJson(faces) && after["face_labels"] == L(Labels(env, faces))
          && after["dummy_profile"] == D(Aggregate(env, faces)))
    && (c.faces.None? && c.captions.Some? ==>
          && "face_labels" in after && after["face_labels"].L? && |after["face_labels"].items| == |c.captions.value|
          && forall i | 0 <= i < |c.captions.value| :: after["face_labels"].items[i] == S(c.captions.value[i]))
    && (c.faces.None? && c.captions.None? ==> SameAt(before, after, "face_labels"))
  }

  lemma OpenedSets(env: Env, now: string, record: Dict, c: Change)
    ensures SetsOpening(env, now, record, Opened(env, now, record, c), c)
    ensures KeepsOthers(record, Opened(env, now, record, c), OPENING_KEYS)
  {
  }

  predicate SetsCaptions(before: Dict, after: Dict, c: Change) {
    && (if c.caption.Some? then "label" in after && after["label"] == S(c.caption.value)
        else SameAt(before, after, "label"))
    && (if c.captions.None? then SameAt(before, after, "face_labels")
        else && "face_labels" in after && after["face_labels"].L?
             && |after["face_labels"].items| == |c.captions.value|
             && forall i | 0 <= i < |c.captions.value| :: after["face_labels"].items[i] == S(c.captions.value[i]))
  }

  lemma CaptionedSets(record: Dict, c: Change)
    ensures SetsCaptions(record, Captioned(record, c), c)
    ensures KeepsOthers(record, Captioned(record, c), {"label", "face_labels"})
  {
  }

  lemma RefacedSets(env: Env, now: string, record: Dict, c: Change)
    requires c.faces.Some?
    ensures var faces, after := NormalizeFaces(env, now, Faces(env, c.faces.value)), Refaced(env, now, record, c);
            && {"faces", "face_labels", "dummy_profile"} <= after.Keys
            && after["faces"] == AsJson(faces) && after["face_labels"] == L(Labels(env, faces))
            && after["dummy_profile"] == D(Aggregate(env, faces))
  {
    hide NormalizeFaces, Faces, AsJson, Labels, Aggregate;
  }

  lemma RefacedKeeps(env: Env, now: string, record: Dict, c: Change)
    ensures KeepsOthers(record, Refaced(env, now, record, c), {"faces", "face_labels", "dummy_profile"})
    ensures c.faces.None? ==> Refaced(env, now, record, c) == record
  {
    hide NormalizeFaces, Faces, AsJson, Labels, Aggregate;
  }

  lemma SameThrough(a: Dict, b: Dict, c: Dict, key: string, keys: set<string>)
    requires KeepsOthers(b, c, keys) && key !in keys
    ensures SameAt(a, b, key) ==> SameAt(a, c, key)
    ensures key in b ==> key in c && c[key] == b[key]
  {
    Kept(b, c, keys, key);
  }

  lemma SameFrom(a: Dict, b: Dict, c: Dict, key: string, keys: set<string>)
    requires KeepsOthers(a, b, keys) && key !in keys
    ensures SameAt(b, c, key) ==> SameAt(a, c, key)
  {
    Kept(a, b, keys, key);
  }

  lemma OpeningThrough(env: Env, now: string, before: Dict, mid: Dict, after: Dict, c: Change)
    requires SetsOpening(env, now, before, mid, c) && KeepsOthers(mid, after, FACE_KEYS)
    ensures SetsOpening(env, now, before, after, c)
  {
    hide SameAt, IntValue, CountOf, KeepsOthers;
    SameThrough(before, mid, after, "is_open", FACE_KEYS);
    SameThrough(before, mid, after, "last_opened_at", FACE_KEYS);
    SameThrough(before, mid, after, "last_closed_at", FACE_KEYS);
    SameThrough(before, mid, after, "open_count", FACE_KEYS);
  }

  lemma FacesFrom(env: Env, now: string, first: Dict, before: Dict, after: Dict, c: Change)
    requires SetsFaces(env, now, before, after, c) && KeepsOthers(first, before, OPENING_KEYS)
    ensures SetsFaces(env, now, first, after, c)
  {
    hide NormalizeFaces, Faces, AsJson, Labels, Aggregate, SameAt, KeepsOthers;
    SameFrom(first, before, after, "label", OPENING_KEYS);
    SameFrom(first, before, after, "active_face_id", OPENING_KEYS);
    SameFrom(first, before, after, "faces", OPENING_KEYS);
    SameFrom(first, before, after, "face_labels", OPENING_KEYS);
    SameFrom(first, before, after, "dummy_profile", OPENING_KEYS);
  }

  const TITLE_KEYS := {"label", "face_labels"}
  const FACED_KEYS := {"faces", "face_labels", "dummy_profile"}

  /** Captions, then faces. */
  lemma FacedSets(env: Env, now: string, before: Dict, titled: Dict, faced: Dict, c: Change)
    requires titled == Captioned(before, c) && faced == Refaced(env, now, titled, c)
    ensures SetsFaces(env, now, before, faced, c.(active := None))
  {
    hide Captioned, Refaced, NormalizeFaces, Faces, AsJson, Labels, Aggregate, KeepsOthers, SameAt;
    CaptionedSets(before, c);
    RefacedKeeps(env, now, titled, c);
    SameThrough(before, titled, faced, "label", FACED_KEYS);
    SameThrough(before, titled, faced, "active_face_id", FACED_KEYS);
    SameFrom(before, titled, faced, "active_face_id", TITLE_KEYS);
    Kept(titled, faced, FACED_KEYS, "active_face_id");
    Kept(before, titled, TITLE_KEYS, "active_face_id");
    Kept(before, titled, TITLE_KEYS, "faces");
    Kept(before, titled, TITLE_KEYS, "dummy_profile");
    if c.faces.Some? {
      RefacedSets(env, now, titled, c);
    }
  }

  /** The active id is set last. */
  lemma ActiveSets(env: Env, now: string, before: Dict, faced: Dict, after: Dict, c: Change)
    requires SetsFaces(env, now, before, faced, c.(active := None))
    requires c.active.None? ==> after == faced
    requires c.active.Some? ==> after == faced["active_face_id" := S(c.active.value)]
    ensures SetsFaces(env, now, before, after, c) && KeepsOthers(faced, after, {"active_face_id"})
  {
    hide NormalizeFaces, Faces, AsJson, Labels, Aggregate, SameAt, KeepsOthers;
    OneKey(faced, after, "active_face_id", if c.active.Some? then S(c.active.value) else S(""));
    SameThrough(before, faced, after, "label", {"active_face_id"});
    SameThrough(before, faced, after, "faces", {"active_face_id"});
    SameThrough(before, faced, after, "face_labels", {"active_face_id"});
    SameThrough(before, faced, after, "dummy_profile", {"active_face_id"});
  }

  lemma OneKey(before: Dict, after: Dict, key: string, value: Json)
    requires after == before || after == before[key := value]
    ensures KeepsOthers(before, after, {key})
  {
  }

  /** An update sets each field it is asked to, and no other. */
  lemma UpdateSetsExactly(env: Env, now: string, record: Dict, c: Change)
    ensures var after := Changed(env, now, record, c);
            && SetsOpening(env, now, record, after, c) && SetsFaces(env, now, record, after, c)
            && KeepsOthers(record, after, OPENING_KEYS + FACE_KEYS)
  {
    hide Opened, Captioned, Refaced, NormalizeFaces, Faces, AsJson, Labels, Aggregate, SetsOpening, SetsFaces,
         KeepsOthers, SameAt;
    var marked := Opened(env, now, record, c);
    var titled := Captioned(marked, c);
    var faced := Refaced(env, now, titled, c);
    var after := Changed(env, now, record, c);
    OpenedSets(env, now, record, c);
    CaptionedSets(marked, c);
    RefacedKeeps(env, now, titled, c);
    FacedSets(env, now, marked, titled, faced, c);
    ActiveSets(env, now, marked, faced, after, c);
    KeepsThrough(marked, titled, faced, TITLE_KEYS, FACED_KEYS);
    KeepsThrough(marked, faced, after, TITLE_KEYS + FACED_KEYS, {"active_face_id"});
    assert TITLE_KEYS + FACED_KEYS + {"active_face_id"} == FACE_KEYS;
    OpeningThrough(env, now, record, marked, after, c);
    FacesFrom(env, now, record, marked, after, c);
    KeepsThrough(record, marked, after, OPENING_KEYS, FACE_KEYS);
  }

  // ---- lists of records ----

  /** What a path is first registered as. */
  function Fresh(env: Env, now: string, path: string): Dict {
    NormalizeRecord(env, now, Path(path))
  }

  function OrFresh(env: Env, now: string, record: Option<Dict>, path: string): Dict {
    if record.Some? then record.value else Fresh(env, now, path)
  }

  function Lookup(env: Env, records: seq<Dict>, path: string): Option<Dict> {
    if records == [] then None
    else if PathOf(env, records[0]) == path then Some(records[0])
    else Lookup(env, records[1..], path)
  }

  function Without(env: Env, records: seq<Dict>, path: string): seq<Dict> {
    if records == [] then []
    else (if PathOf(env, records[0]) == path then [] else [records[0]]) + Without(env, records[1..], path)
  }

  /** The first record of the path changed, or a fresh one appended and changed. */
  function Updated(env: Env, now: string, records: seq<Dict>, path: string, c: Change): seq<Dict> {
    if records == [] then [Changed(env, now, Fresh(env, now, path), c)]
    else if PathOf(env, records[0]) == path then [Changed(env, now, records[0], c)] + records[1..]
    else [records[0]] + Updated(env, now, records[1..], path, c)
  }

  function Apply(env: Env, records: seq<Dict>, op: Op): seq<Dict> {
    match op.kind
    case Register =>
      if Lookup(env, records, op.path).Some? then records else records + [Fresh(env, op.now, op.path)]
    case Unregister => Without(env, records, op.path)
    case Update(c) => Updated(env, op.now, records, op.path, c)
  }

  /** Registering what is listed and unregistering what is not write nothing. */
  predicate Writes(env: Env, records: seq<Dict>, op: Op) {
    match op.kind
    case Register => Lookup(env, records, op.path).None?
    case Unregister => Lookup(env, records, op.path).Some?
    case Update(_) => true
  }

  /** The files after one call that is not cut off. */
  function AfterCall(env: Env, d: Disk, op: Op): Disk {
    var read := AfterLoad(env, op.now, d, op.newKey, false, op.saveKey, 8);
    var records := Loaded(env, op.now, d);
    if Writes(env, records, op) then SaveSteps(env, read, Apply(env, records, op), op.saveKey, false)[8] else read
  }

  function AfterCalls(env: Env, d: Disk, ops: seq<Op>): Disk
    decreases |ops|
  {
    if ops == [] then d else AfterCalls(env, AfterCall(env, d, ops[0]), ops[1..])
  }

  // ---- the object ----

  lemma {:induction false} LookupSplit(env: Env, records: seq<Dict>, i: nat, path: string, now: string, c: Change)
    requires i <= |records| && forall j | 0 <= j < i :: PathOf(env, records[j]) != path
    ensures Lookup(env, records, path) == Lookup(env, records[i..], path)
    ensures Updated(env, now, records, path, c) == records[..i] + Updated(env, now, records[i..], path, c)
  {
    hide PathOf, Changed, Fresh;
    if i > 0 {
      LookupSplit(env, records[1..], i - 1, path, now, c);
      assert records[1..][i - 1..] == records[i..];
      assert records[..i] == [records[0]] + records[1..][..i - 1];
    }
  }

  lemma WithoutNext(env: Env, records: seq<Dict>, i: nat, path: string, kept: seq<Dict>)
    requires i < |records|
    ensures kept + Without(env, records[i..], path)
         == (if PathOf(env, records[i]) != path then kept + [records[i]] else kept)
            + Without(env, records[i + 1..], path)
  {
    hide PathOf;
    assert records[i..][0] == records[i] && records[i..][1..] == records[i + 1..];
  }

  lemma WithoutNone(env: Env, path: string, kept: seq<Dict>)
    ensures kept + Without(env, [], path) == kept
  {
  }

  class VesselRegistry {
    const files: RegistryFiles

    constructor (files: RegistryFiles)
      ensures this.files == files
    {
      this.files := files;
    }

    static method FindRecord(env: Env, records: seq<Dict>, path: string) returns (i: nat)
      ensures i <= |records| && (forall j | 0 <= j < i :: PathOf(env, records[j]) != path)
      ensures i < |records| ==> PathOf(env, records[i]) == path
    {
      i := 0;
      while i < |records| && PathOf(env, records[i]) != path
        invariant 0 <= i <= |records| && forall j | 0 <= j < i :: PathOf(env, records[j]) != path
      {
        i := i + 1;
      }
    }

    static method Filter(env: Env, records: seq<Dict>, path: string) returns (kept: seq<Dict>)
      ensures kept == Without(env, records, path)
    {
      hide PathOf, Without;
      kept := [];
      assert records[0..] == records && [] + Without(env, records, path) == Without(env, records, path);
      for i := 0 to |records|
        invariant Without(env, records, path) == kept + Without(env, records[i..], path)
      {
        WithoutNext(env, records, i, path, kept);
        if PathOf(env, records[i]) != path {
          kept := kept + [records[i]];
        }
      }
      assert records[|records|..] == [];
      WithoutNone(env, path, kept);
    }

    method RegisterVessel(path: string, now: string, newKey: string, saveKey: string)
      modifies files
      ensures files.disk == AfterCall(files.env, old(files.disk), Op(path, now, Register, newKey, saveKey))
    {
      hide AfterLoad, Loaded, SaveSteps, Fresh;
      var loaded := files.Load(now, newKey, false, saveKey, 8);
      var records := loaded.value;
      var i := FindRecord(files.env, records, path);
      LookupFound(files.env, records, i, path);
      if i == |records| {
        files.Save(records + [Fresh(files.env, now, path)], saveKey, false, 8);
      }
    }

    method UnregisterVessel(path: string, now: string, newKey: string, saveKey: string) returns (removed: bool)
      modifies files
      ensures files.disk == AfterCall(files.env, old(files.disk), Op(path, now, Unregister, newKey, saveKey))
      ensures removed == Lookup(files.env, Loaded(files.env, now, old(files.disk)), path).Some?
    {
      hide AfterLoad, Loaded, SaveSteps;
      var loaded := files.Load(now, newKey, false, saveKey, 8);
      var records := loaded.value;
      var filtered := Filter(files.env, records, path);
      WithoutShrinks(files.env, records, path);
      removed := |filtered| != |records|;
      if removed {
        files.Save(filtered, saveKey, false, 8);
      }
    }

    /** Changes the first record of the path in place, appending a fresh one when there is none. */
    method UpdateRecord(path: string, now: string, c: Change, newKey: string, saveKey: string) returns (record: Dict)
      modifies files
      ensures files.disk == AfterCall(files.env, old(files.disk), Op(path, now, Update(c), newKey, saveKey))
      ensures var before := Lookup(files.env, Loaded(files.env, now, old(files.disk)), path);
              var was := OrFresh(files.env, now, before, path);
              && record == Changed(files.env, now, was, c)
              && SetsOpening(files.env, now, was, record, c) && SetsFaces(files.env, now, was, record, c)
              && KeepsOthers(was, record, OPENING_KEYS + FACE_KEYS)
    {
      hide AfterLoad, Loaded, SaveSteps, Fresh, Changed, PathOf, SetsOpening, SetsFaces, SameAt;
      var loaded := files.Load(now, newKey, false, saveKey, 8);
      var records := loaded.value;
      var i := FindRecord(files.env, records, path);
      LookupSplit(files.env, records, i, path, now, c);
      if i == |records| {
        record := Changed(files.env, now, Fresh(files.env, now, path), c);
        assert records[..i] == records && records[i..] == [];
        records := records + [record];
      } else {
        assert records[i..][0] == records[i] && records[i..][1..] == records[i + 1..];
        record := Changed(files.env, now, records[i], c);
        assert records[i := record] == records[..i] + ([record] + records[i + 1..]);
        records := records[i := record];
      }
      assert records == Updated(files.env, now, loaded.value, path, c);
      UpdateSetsExactly(files.env, now, OrFresh(files.env, now, Lookup(files.env, loaded.value, path), path), c);
      files.Save(records, saveKey, false, 8);
    }
  }

  lemma LookupFound(env: Env, records: seq<Dict>, i: nat, path: string)
    requires i <= |records| && (forall j | 0 <= j < i :: PathOf(env, records[j]) != path)
    requires i < |records| ==> PathOf(env, records[i]) == path
    ensures Lookup(env, records, path) == if i < |records| then Some(records[i]) else None
  {
    hide PathOf;
    LookupSplit(env, records, i, path, "", Change(None, false, None, None, None, None));
  }

  lemma {:induction false} WithoutShrinks(env: Env, records: seq<Dict>, path: string)
    ensures |Without(env, records, path)| <= |records|
    ensures |Without(env, records, path)| == |records| <==> Lookup(env, records, path).None?
  {
    hide PathOf;
    if records != [] {
      WithoutShrinks(env, records[1..], path);
    }
  }

  // ---- looking up ----

  lemma {:induction false} LookupNoneExactly(env: Env, records: seq<Dict>, path: string)
    ensures Lookup(env, records, path).None? <==> forall r <- records :: PathOf(env, r) != path
    ensures Lookup(env, records, path).Some? ==>
              Lookup(env, records, path).value in records && PathOf(env, Lookup(env, records, path).value) == path
  {
    hide PathOf;
    if records != [] {
      LookupNoneExactly(env, records[1..], path);
      assert records == [records[0]] + records[1..];
    }
  }

  lemma DistinctCons(env: Env, r: Dict, rest: seq<Dict>)
    ensures DistinctPaths(env, [r] + rest) <==> Lookup(env, rest, PathOf(env, r)).None? && DistinctPaths(env, rest)
  {
    hide PathOf, DistinctPaths, Lookup;
    if Lookup(env, rest, PathOf(env, r)).None? && DistinctPaths(env, rest) {
      ConsDistinct(env, r, rest);
    }
    if DistinctPaths(env, [r] + rest) {
      DistinctTail(env, r, rest);
    }
  }

  lemma ConsDistinct(env: Env, r: Dict, rest: seq<Dict>)
    requires Lookup(env, rest, PathOf(env, r)).None? && DistinctPaths(env, rest)
    ensures DistinctPaths(env, [r] + rest)
  {
    hide PathOf, Lookup;
    LookupNoneExactly(env, rest, PathOf(env, r));
    var whole := [r] + rest;
    forall i, j | 0 <= i < j < |whole| ensures PathOf(env, whole[i]) != PathOf(env, whole[j]) {
      assert whole[j] == rest[j - 1] && rest[j - 1] in rest;
      assert i > 0 ==> whole[i] == rest[i - 1];
    }
  }

  lemma DistinctTail(env: Env, r: Dict, rest: seq<Dict>)
    requires DistinctPaths(env, [r] + rest)
    ensures Lookup(env, rest, PathOf(env, r)).None? && DistinctPaths(env, rest)
  {
    hide PathOf, Lookup;
    LookupNoneExactly(env, rest, PathOf(env, r));
    var whole := [r] + rest;
    forall i, j | 0 <= i < j < |rest| ensures PathOf(env, rest[i]) != PathOf(env, rest[j]) {
      assert rest[i] == whole[i + 1] && rest[j] == whole[j + 1];
    }
    forall x | x in rest ensures PathOf(env, x) != PathOf(env, r) {
      var k :| 0 <= k < |rest| && rest[k] == x;
      assert whole[k + 1] == x && whole[0] == r;
    }
  }

  /** What a call leaves under a path, from what was there. */
  function OwnStep(env: Env, op: Op, before: Option<Dict>): Option<Dict> {
    match op.kind
    case Register => Some(OrFresh(env, op.now, before, op.path))
    case Unregister => None
    case Update(c) => Some(Changed(env, op.now, OrFresh(env, op.now, before, op.path), c))
  }

  lemma ChangedPath(env: Env, now: string, record: Dict, c: Change)
    ensures PathOf(env, Changed(env, now, record, c)) == PathOf(env, record)
  {
    hide NormalizeFaces, Faces, AsJson, Labels, Aggregate;
  }

  lemma {:induction false} LookupUpdated(env: Env, now: string, records: seq<Dict>, path: string, c: Change, q: string)
    ensures Lookup(env, Updated(env, now, records, path, c), q)
         == if q == path then Some(Changed(env, now, OrFresh(env, now, Lookup(env, records, path), path), c))
            else Lookup(env, records, q)
  {
    hide PathOf, Changed, Fresh;
    RegisteredPath(env, now, path);
    ChangedPath(env, now, Fresh(env, now, path), c);
    assert Fresh(env, now, path) == NormalizeRecord(env, now, Path(path)) by { FreshIs(env, now, path); }
    if records == [] {
      var one := Updated(env, now, records, path, c);
      assert one[1..] == [];
    } else {
      var rest := records[1..];
      ChangedPath(env, now, records[0], c);
      LookupUpdated(env, now, rest, path, c, q);
      var next := Updated(env, now, records, path, c);
      if PathOf(env, records[0]) == path {
        assert next[0] == Changed(env, now, records[0], c) && next[1..] == rest;
      } else {
        assert next[0] == records[0] && next[1..] == Updated(env, now, rest, path, c);
      }
    }
  }

  lemma FreshIs(env: Env, now: string, path: string)
    ensures Fresh(env, now, path) == NormalizeRecord(env, now, Path(path))
  {
  }

  lemma {:induction false} LookupWithout(env: Env, records: seq<Dict>, path: string, q: string)
    ensures Lookup(env, Without(env, records, path), q) == if q == path then None else Lookup(env, records, q)
  {
    hide PathOf;
    if records != [] {
      var rest := Without(env, records[1..], path);
      LookupWithout(env, records[1..], path, q);
      assert [] + rest == rest && ([records[0]] + rest)[1..] == rest;
    }
  }

  lemma {:induction false} LookupAppended(env: Env, records: seq<Dict>, r: Dict, q: string)
    ensures Lookup(env, records + [r], q)
         == if Lookup(env, records, q).Some? then Lookup(env, records, q)
            else if PathOf(env, r) == q then Some(r)
            else None
  {
    hide PathOf;
    if records == [] {
      assert records + [r] == [r] && [r][1..] == [];
    } else {
      assert (records + [r])[0] == records[0] && (records + [r])[1..] == records[1..] + [r];
      LookupAppended(env, records[1..], r, q);
    }
  }

  /** A call that writes changes what is under its own path, and under no other. */
  lemma LookupApplied(env: Env, records: seq<Dict>, op: Op, q: string)
    requires Writes(env, records, op)
    ensures Lookup(env, Apply(env, records, op), q)
         == if q == op.path then OwnStep(env, op, Lookup(env, records, q)) else Lookup(env, records, q)
  {
    hide PathOf, Changed, Fresh, Updated, Without, Lookup;
    match op.kind
    case Register =>
      FreshIs(env, op.now, op.path);
      RegisteredPath(env, op.now, op.path);
      LookupAppended(env, records, Fresh(env, op.now, op.path), q);
    case Unregister =>
      LookupWithout(env, records, op.path, q);
    case Update(c) =>
      LookupUpdated(env, op.now, records, op.path, c, q);
  }

  // ---- paths stay distinct ----

  lemma {:induction false} AppliedDistinct(env: Env, records: seq<Dict>, op: Op)
    requires DistinctPaths(env, records) && Writes(env, records, op)
    ensures DistinctPaths(env, Apply(env, records, op))
  {
    hide PathOf, Changed, Fresh, DistinctPaths;
    match op.kind
    case Register =>
      FreshIs(env, op.now, op.path);
      RegisteredPath(env, op.now, op.path);
      AppendedDistinct(env, records, Fresh(env, op.now, op.path));
    case Unregister => WithoutDistinct(env, records, op.path);
    case Update(c) => UpdatedDistinct(env, op.now, records, op.path, c);
  }

  lemma {:induction false} AppendedDistinct(env: Env, records: seq<Dict>, r: Dict)
    requires DistinctPaths(env, records) && Lookup(env, records, PathOf(env, r)).None?
    ensures DistinctPaths(env, records + [r])
  {
    hide PathOf;
    LookupNoneExactly(env, records, PathOf(env, r));
    var longer := records + [r];
    forall i, j | 0 <= i < j < |longer| ensures PathOf(env, longer[i]) != PathOf(env, longer[j]) {
      assert longer[i] == records[i] && records[i] in records;
    }
  }

  lemma {:induction false} WithoutDistinct(env: Env, records: seq<Dict>, path: string)
    requires DistinctPaths(env, records)
    ensures DistinctPaths(env, Without(env, records, path))
  {
    hide PathOf, DistinctPaths;
    if records != [] {
      var first, rest := records[0], records[1..];
      assert records == [first] + rest;
      DistinctCons(env, first, rest);
      WithoutDistinct(env, rest, path);
      LookupWithout(env, rest, path, PathOf(env, first));
      DistinctCons(env, first, Without(env, rest, path));
      assert [] + Without(env, rest, path) == Without(env, rest, path);
    } else {
      assert Without(env, records, path) == records;
    }
  }

  lemma {:induction false} UpdatedDistinct(env: Env, now: string, records: seq<Dict>, path: string, c: Change)
    requires DistinctPaths(env, records)
    ensures DistinctPaths(env, Updated(env, now, records, path, c))
  {
    hide PathOf, DistinctPaths, Changed, Fresh;
    if records != [] {
      var first, rest := records[0], records[1..];
      assert records == [first] + rest;
      DistinctCons(env, first, rest);
      ChangedPath(env, now, first, c);
      DistinctCons(env, Changed(env, now, first, c), rest);
      UpdatedDistinct(env, now, rest, path, c);
      LookupUpdated(env, now, rest, path, c, PathOf(env, first));
      DistinctCons(env, first, Updated(env, now, rest, path, c));
    } else {
      OneIsDistinct(env, Changed(env, now, Fresh(env, now, path), c));
    }
  }

  lemma OneIsDistinct(env: Env, r: Dict)
    ensures DistinctPaths(env, [r])
  {
  }

  // ---- what every stored record keeps ----

  /** Both standard faces, ids distinct, and no binding that is not an object. */
  ghost predicate Sound(env: Env, record: Dict) {
    var faces := FacesOf(env, record);
    && HasFace(env, faces, "face_a") && HasFace(env, faces, "face_b") && DistinctIds(env, faces)
    && forall f | f in faces :: Get(f, "object_binding", D(map[])).D?
  }

  lemma NormalFilled(env: Env, face: Dict)
    requires Get(face, "object_binding", D(map[])).D?
    ensures Filled(NormalizeFace(env, face))
  {
    hide NormalizeFace, NormalizeDummyProfile, NormalizeBinding, NormalizeEmergencyAuth, Get, FaceDict, FaceId;
    ViewOf(env, face);
    FaceDictObjects(NormalView(env, face), D(map[]));
    BindingSettles(env, Get(face, "object_binding", D(map[])));
    AuthSettles(env, GetDict(face, "emergency_auth"));
  }

  lemma NormalBound(env: Env, face: Dict)
    ensures Get(NormalizeFace(env, face), "object_binding", D(map[])).D?
  {
    hide NormalizeFace, NormalizeDummyProfile, NormalizeBinding, NormalizeEmergencyAuth, Get, FaceDict, FaceId;
    ViewOf(env, face);
    FaceDictObjects(NormalView(env, face), D(map[]));
  }

  /** A sound record is normalized the same at any time, and settled by it. */
  lemma SoundSettles(env: Env, now: string, later: string, record: Dict)
    requires UpperSettles(env) && env.upper("LOW") == "LOW" && Sound(env, record)
    ensures var n := NormalizeObject(env, now, record);
            && NormalizeObject(env, later, record) == n && NormalizeObject(env, later, n) == n
            && Sound(env, n) && PathOf(env, n) == PathOf(env, record)
  {
    hide NormalizeFace, FacesOf, FaceId, Filled, PathOf, NormalizeFaces, NormalizeObject, UpperSettles, Get;
    var faces, n := FacesOf(env, record), NormalizeObject(env, now, record);
    BothListed(env, now, faces);
    BothListed(env, later, faces);
    SameFacesSameRecord(env, now, later, record);
    LoadedFaces(env, now, record);
    NormalizedPath(env, now, Rec(record));
    var loaded := FacesOf(env, n);
    NormalizedEachLength(env, faces);
    forall f | f in loaded ensures Filled(f) && Get(f, "object_binding", D(map[])).D? {
      var i :| 0 <= i < |loaded| && loaded[i] == f;
      assert faces[i] in faces;
      NormalFilled(env, faces[i]);
      NormalBound(env, faces[i]);
    }
    StillListed(env, faces, loaded, "face_a");
    StillListed(env, faces, loaded, "face_b");
    LoadedRecordSettlesExactly(env, now, later, record);
  }

  lemma {:induction false} NormalizedEachLength(env: Env, faces: seq<Dict>)
    ensures |NormalizeEach(env, faces)| == |faces|
  {
    hide NormalizeFace;
    if faces != [] {
      NormalizedEachLength(env, faces[1..]);
    }
  }

  lemma SameFacesSameRecord(env: Env, now: string, later: string, record: Dict)
    requires NormalizeFaces(env, now, FacesOf(env, record)) == NormalizeFaces(env, later, FacesOf(env, record))
    ensures NormalizeObject(env, now, record) == NormalizeObject(env, later, record)
  {
    hide NormalizeFaces, FacesOf, Aggregate, Labels, GetStr, GetInt, GetBool;
  }

  lemma StillListed(env: Env, faces: seq<Dict>, loaded: seq<Dict>, id: string)
    requires HasFace(env, faces, id) && |loaded| == |faces|
    requires forall i | 0 <= i < |faces| :: FaceId(env, loaded[i]) == FaceId(env, faces[i])
    ensures HasFace(env, loaded, id)
  {
    hide FaceId;
    var f :| f in faces && FaceId(env, f) == id;
    var i :| 0 <= i < |faces| && faces[i] == f;
    assert loaded[i] in loaded;
  }

  lemma FreshSound(env: Env, now: string, path: string)
    ensures Sound(env, Fresh(env, now, path)) && PathOf(env, Fresh(env, now, path)) == path
  {
    hide NormalizeRecord, FaceId, FacesOf;
    RegisteredFaces(env, now, path);
    RegisteredPath(env, now, path);
    DefaultId(env, "face_a", now);
    DefaultId(env, "face_b", now);
    var a, b := DefaultFace("face_a", now), DefaultFace("face_b", now);
    assert a in [a, b] && b in [a, b];
  }

  /** The faces a call passes have distinct ids. */
  predicate ChangeOk(env: Env, c: Change) {
    c.faces.Some? ==> DistinctIds(env, Faces(env, c.faces.value))
  }

  predicate OpOk(env: Env, op: Op) {
    op.kind.Update? ==> ChangeOk(env, op.kind.change)
  }

  lemma RefacedFaces(env: Env, now: string, record: Dict, c: Change)
    ensures var before := Captioned(Opened(env, now, record, c), c);
            && FacesOf(env, before) == FacesOf(env, record)
            && FacesOf(env, Changed(env, now, record, c)) == FacesOf(env, Refaced(env, now, before, c))
  {
    hide Faces, NormalizeFaces, AsJson, Labels, Aggregate;
  }

  lemma ChangedSound(env: Env, now: string, record: Dict, c: Change)
    requires UpperSettles(env) && env.upper("LOW") == "LOW" && Sound(env, record) && ChangeOk(env, c)
    ensures Sound(env, Changed(env, now, record, c))
  {
    hide Faces, FacesOf, NormalizeFaces, NormalizeFace, FaceId, Changed, Captioned, Opened, AsJson, Labels, Aggregate,
         Get, UpperSettles, NormalizeObject;
    RefacedFaces(env, now, record, c);
    if c.faces.Some? {
      var given := map["faces" := L(c.faces.value)];
      GivenFaces(env, c.faces.value);
      LoadedFaces(env, now, given);
      var faces := NormalizeFaces(env, now, Faces(env, c.faces.value));
      FacesHaveIds(env, c.faces.value);
      NormalizedFacesShaped(env, now, Faces(env, c.faces.value));
      FacesHaveIdsAgain(env, now, given);
      SetFaces(env, Captioned(Opened(env, now, record, c), c), c, now);
      forall f | f in faces ensures Get(f, "object_binding", D(map[])).D? {
        ShapedBound(env, f);
      }
    }
  }

  lemma GivenFaces(env: Env, items: seq<Json>)
    ensures FacesOf(env, map["faces" := L(items)]) == Faces(env, items)
  {
    hide Faces;
  }

  lemma FacesHaveIdsAgain(env: Env, now: string, d: Dict)
    ensures forall f | f in FacesOf(env, NormalizeObject(env, now, d)) :: FaceId(env, f) != ""
  {
    hide NormalizeObject, Faces, FaceId;
    var value := Get(NormalizeObject(env, now, d), "faces", L([]));
    if value.L? {
      FacesHaveIds(env, value.items);
    }
  }

  lemma SetFaces(env: Env, record: Dict, c: Change, now: string)
    requires c.faces.Some?
    requires forall f | f in NormalizeFaces(env, now, Faces(env, c.faces.value)) :: FaceId(env, f) != ""
    ensures FacesOf(env, Refaced(env, now, record, c)) == NormalizeFaces(env, now, Faces(env, c.faces.value))
  {
    hide Faces, NormalizeFaces, FaceId, Labels, Aggregate, AsJson, FacesOf;
    ListedFaces(env, Refaced(env, now, record, c), NormalizeFaces(env, now, Faces(env, c.faces.value)));
  }

  lemma ShapedBound(env: Env, face: Dict)
    requires Shaped(env, face)
    ensures Get(face, "object_binding", D(map[])).D?
  {
    hide FaceDict, NormalizeDummyProfile, NormalizeBinding, NormalizeEmergencyAuth, Get;
    var v :| Shapes(env, face, v);
    FaceDictObjects(v, D(map[]));
  }

  // ---- the files ----

  ghost predicate AllSound(env: Env, records: seq<Dict>) {
    forall r | r in records :: Sound(env, r)
  }

  /** The files hold these records: no index yet, or both halves as a finished save left them. */
  ghost predicate Holds(env: Env, d: Disk, records: seq<Dict>) {
    && AllSound(env, records) && DistinctPaths(env, records)
    && if d.index == NoIndex then records == []
       else d.index == Index(PublicRecords(env, records))
            && (records != [] ==> SealedDetail(d) == SealedRecords(env, records))
  }

  lemma HoldsLoads(env: Env, now: string, d: Disk, records: seq<Dict>)
    requires Holds(env, d, records)
    ensures Loaded(env, now, d) == NormalizeAll(env, now, records) && !NeedsMigration(d)
  {
    hide Sound, LoadRecords, PublicRecords, SealedRecords, CarriesSealedFields, NormalizeObject;
    PublicRecordsClean(env, records);
    if records == [] {
      NothingSaved(env, now);
    } else {
      forall r | r in records ensures DistinctIds(env, FacesOf(env, r)) {
        SoundIds(env, r);
      }
      SaveLoadRoundTrip(env, now, records);
    }
  }

  lemma NothingSaved(env: Env, now: string)
    ensures PublicRecords(env, []) == [] && NormalizeAll(env, now, []) == []
    ensures forall sealed :: LoadRecords(env, now, [], sealed) == []
  {
  }

  lemma SoundIds(env: Env, record: Dict)
    requires Sound(env, record)
    ensures DistinctIds(env, FacesOf(env, record))
  {
  }

  /** A start-up that finds nothing to migrate changes neither the index nor what is readable. */
  lemma QuietLoad(env: Env, d: Disk, op: Op)
    requires !NeedsMigration(d)
    ensures var read := AfterLoad(env, op.now, d, op.newKey, false, op.saveKey, 8);
            read.index == d.index && (SealedDetail(d) != map[] ==> SealedDetail(read) == SealedDetail(d))
  {
    hide NeedsMigration, SaveSteps, Loaded;
  }

  lemma LoadHolds(env: Env, d: Disk, records: seq<Dict>, op: Op)
    requires Holds(env, d, records)
    ensures Holds(env, AfterLoad(env, op.now, d, op.newKey, false, op.saveKey, 8), records)
  {
    hide AllSound, DistinctPaths, PublicRecords, SealedRecords, NeedsMigration, AfterLoad, SealedDetail;
    HoldsLoads(env, op.now, d, records);
    QuietLoad(env, d, op);
    SealedNonempty(env, records);
  }

  lemma SaveHolds(env: Env, d: Disk, records: seq<Dict>, key: string)
    requires AllSound(env, records) && DistinctPaths(env, records)
    ensures Holds(env, SaveSteps(env, d, records, key, false)[8], records)
  {
    hide AllSound, DistinctPaths, PublicRecords, SealedRecords;
  }

  lemma NormalizedAllSound(env: Env, now: string, records: seq<Dict>)
    requires UpperSettles(env) && env.upper("LOW") == "LOW" && AllSound(env, records) && DistinctPaths(env, records)
    ensures AllSound(env, NormalizeAll(env, now, records)) && DistinctPaths(env, NormalizeAll(env, now, records))
  {
    hide Sound, NormalizeObject, UpperSettles, PathOf, NormalizeAll;
    NormalizeAllAt(env, now, records);
    var n := NormalizeAll(env, now, records);
    forall i | 0 <= i < |n| ensures Sound(env, n[i]) && PathOf(env, n[i]) == PathOf(env, records[i]) {
      assert records[i] in records;
      SoundSettles(env, now, now, records[i]);
    }
  }

  lemma {:induction false} LookupNormalized(env: Env, now: string, records: seq<Dict>, path: string)
    requires UpperSettles(env) && env.upper("LOW") == "LOW" && AllSound(env, records)
    ensures var own := Lookup(env, records, path);
            && Lookup(env, NormalizeAll(env, now, records), path)
               == if own.Some? then Some(NormalizeObject(env, now, own.value)) else None
  {
    hide Sound, NormalizeObject, UpperSettles, PathOf;
    if records != [] {
      assert records[0] in records;
      SoundSettles(env, now, now, records[0]);
      LookupNormalized(env, now, records[1..], path);
      assert NormalizeAll(env, now, records)[1..] == NormalizeAll(env, now, records[1..]);
    }
  }

  lemma {:induction false} UpdatedMembers(env: Env, now: string, records: seq<Dict>, path: string, c: Change)
    ensures forall r | r in Updated(env, now, records, path, c) ::
              || r in records || (exists q :: q in records && r == Changed(env, now, q, c))
              || r == Changed(env, now, Fresh(env, now, path), c)
  {
    hide PathOf, Changed, Fresh;
    if records != [] {
      UpdatedMembers(env, now, records[1..], path, c);
      assert records == [records[0]] + records[1..];
    }
  }

  lemma {:induction false} WithoutMembers(env: Env, records: seq<Dict>, path: string)
    ensures forall r | r in Without(env, records, path) :: r in records
  {
    hide PathOf;
    if records != [] {
      WithoutMembers(env, records[1..], path);
      assert records == [records[0]] + records[1..];
    }
  }

  lemma AppliedSound(env: Env, records: seq<Dict>, op: Op)
    requires UpperSettles(env) && env.upper("LOW") == "LOW" && AllSound(env, records) && OpOk(env, op)
    ensures AllSound(env, Apply(env, records, op))
  {
    hide Sound, Changed, Fresh, PathOf, UpperSettles, Updated, Without, ChangeOk;
    FreshSound(env, op.now, op.path);
    match op.kind
    case Register =>
    case Unregister => WithoutMembers(env, records, op.path);
    case Update(c) =>
      UpdatedMembers(env, op.now, records, op.path, c);
      ChangedSound(env, op.now, Fresh(env, op.now, op.path), c);
      forall q | q in records ensures Sound(env, Changed(env, op.now, q, c)) {
        ChangedSound(env, op.now, q, c);
      }
  }

  /** What the files hold after a call, and what the call changed its records to. */
  lemma CallHolds(env: Env, d: Disk, records: seq<Dict>, op: Op) returns (next: seq<Dict>)
    requires UpperSettles(env) && env.upper("LOW") == "LOW" && Holds(env, d, records) && OpOk(env, op)
    ensures var listed := NormalizeAll(env, op.now, records);
            next == if Writes(env, listed, op) then Apply(env, listed, op) else records
    ensures Holds(env, AfterCall(env, d, op), next)
  {
    hide Holds, AllSound, DistinctPaths, NormalizeAll, Loaded, AfterLoad, SaveSteps, Apply, Writes, UpperSettles, OpOk;
    var listed := NormalizeAll(env, op.now, records);
    HoldsLoads(env, op.now, d, records);
    HoldsParts(env, d, records);
    if Writes(env, listed, op) {
      next := Apply(env, listed, op);
      NormalizedAllSound(env, op.now, records);
      AppliedSound(env, listed, op);
      AppliedDistinct(env, listed, op);
      SaveHolds(env, AfterLoad(env, op.now, d, op.newKey, false, op.saveKey, 8), next, op.saveKey);
    } else {
      next := records;
      LoadHolds(env, d, records, op);
    }
  }

  lemma HoldsParts(env: Env, d: Disk, records: seq<Dict>)
    requires Holds(env, d, records)
    ensures AllSound(env, records) && DistinctPaths(env, records)
  {
  }

  // ---- the theorems ----

  /** The record a start-up lists under a path. */
  function Listed(env: Env, now: string, d: Disk, path: string): Option<Dict> {
    Lookup(env, Loaded(env, now, d), path)
  }

  /** One record alone: what its own calls make of it. */
  function OwnCall(env: Env, op: Op, before: Option<Dict>): Option<Dict> {
    if op.kind.Register? && before.Some? then before
    else
      var after := OwnStep(env, op, before);
      if after.Some? then Some(NormalizeObject(env, op.now, after.value)) else None
  }

  function OwnCalls(env: Env, ops: seq<Op>, path: string, before: Option<Dict>): Option<Dict>
    decreases |ops|
  {
    if ops == [] then before
    else OwnCalls(env, ops[1..], path, if ops[0].path == path then OwnCall(env, ops[0], before) else before)
  }

  lemma ListedIs(env: Env, now: string, d: Disk, records: seq<Dict>, path: string)
    requires UpperSettles(env) && env.upper("LOW") == "LOW" && Holds(env, d, records)
    ensures var own := Lookup(env, records, path);
            Listed(env, now, d, path) == if own.Some? then Some(NormalizeObject(env, now, own.value)) else None
    ensures Lookup(env, records, path).Some? ==> Sound(env, Lookup(env, records, path).value)
  {
    hide Holds, Sound, NormalizeObject, UpperSettles, Loaded, NormalizeAll, Lookup;
    HoldsLoads(env, now, d, records);
    HoldsParts(env, d, records);
    LookupNormalized(env, now, records, path);
    LookupNoneExactly(env, records, path);
  }

  lemma OwnStepSound(env: Env, op: Op, before: Option<Dict>)
    requires UpperSettles(env) && env.upper("LOW") == "LOW" && OpOk(env, op)
    requires before.Some? ==> Sound(env, before.value)
    ensures OwnStep(env, op, before).Some? ==> Sound(env, OwnStep(env, op, before).value)
  {
    hide Sound, Changed, Fresh, ChangeOk, UpperSettles;
    FreshSound(env, op.now, op.path);
    if op.kind.Update? {
      ChangedSound(env, op.now, OrFresh(env, op.now, before, op.path), op.kind.change);
    }
  }

  /** One call changes what is listed under its own path, as if that record were alone, and under no other path. */
  lemma CallChangesOwn(env: Env, d: Disk, records: seq<Dict>, op: Op, path: string, now: string)
    returns (next: seq<Dict>)
    requires UpperSettles(env) && env.upper("LOW") == "LOW" && Holds(env, d, records) && OpOk(env, op)
    ensures Holds(env, AfterCall(env, d, op), next)
    ensures Listed(env, now, AfterCall(env, d, op), path)
         == if path == op.path then OwnCall(env, op, Listed(env, now, d, path)) else Listed(env, now, d, path)
  {
    hide Holds, Sound, NormalizeObject, UpperSettles, AfterCall, NormalizeAll, Lookup, Apply, Listed, OwnStep, OpOk;
    var listed := NormalizeAll(env, op.now, records);
    next := CallHolds(env, d, records, op);
    HoldsParts(env, d, records);
    ListedIs(env, now, d, records, path);
    ListedIs(env, now, AfterCall(env, d, op), next, path);
    LookupNormalized(env, op.now, records, path);
    var own := Lookup(env, records, path);
    if own.Some? {
      SoundSettles(env, op.now, now, own.value);
    }
    if Writes(env, listed, op) {
      LookupApplied(env, listed, op, path);
      OwnStepSound(env, op, Lookup(env, listed, path));
      var after := OwnStep(env, op, Lookup(env, listed, path));
      if after.Some? {
        SoundSettles(env, op.now, now, after.value);
      }
    } else {
      UnwrittenOwn(env, op, Lookup(env, listed, op.path));
    }
  }

  lemma UnwrittenOwn(env: Env, op: Op, before: Option<Dict>)
    requires match op.kind case Register => before.Some? case Unregister => before.None? case Update(_) => false
    ensures OwnCall(env, op, before) == before
  {
  }

  /**
   Over every run of register, unregister and update from a device without an index, or
   from any finished save: what is listed under a path is what the calls on that path
   made of it, whatever was done to the others in between, and at whatever time it is read.
   */
  lemma {:induction false} CallsChangeOwn(env: Env, d: Disk, records: seq<Dict>, ops: seq<Op>, path: string,
                                          now: string) returns (end: seq<Dict>)
    requires UpperSettles(env) && env.upper("LOW") == "LOW" && Holds(env, d, records)
    requires forall op <- ops :: OpOk(env, op)
    ensures Holds(env, AfterCalls(env, d, ops), end)
    ensures Listed(env, now, AfterCalls(env, d, ops), path) == OwnCalls(env, ops, path, Listed(env, now, d, path))
    decreases |ops|
  {
    hide Holds, UpperSettles, AfterCall, OwnCall, Listed, OpOk;
    end := records;
    if ops != [] {
      var next := CallChangesOwn(env, d, records, ops[0], path, now);
      end := CallsChangeOwn(env, AfterCall(env, d, ops[0]), next, ops[1..], path, now);
    }
  }

  /** A device without an index holds no records. */
  lemma NoIndexHolds(env: Env, d: Disk, now: string, path: string)
    requires d.index == NoIndex
    ensures Holds(env, d, []) && Listed(env, now, d, path).None?
  {
  }

  /** The fields a later start-up lists that only an update of the record sets. */
  predicate SetsListed(now: string, before: Dict, after: Dict, c: Change) {
    && LISTED_TEXTS + {"is_open", "open_count"} <= before.Keys * after.Keys
    && after["is_open"] == (if c.isOpen.Some? then B(c.isOpen.value) else before["is_open"])
    && after["last_opened_at"] == (if c.isOpen == Some(true) then S(now) else before["last_opened_at"])
    && after["last_closed_at"] == (if c.isOpen == Some(false) then S(now) else before["last_closed_at"])
    && before["open_count"].I? && after["open_count"].I?
    && after["open_count"].n == before["open_count"].n + (if c.isOpen == Some(true) && c.count then 1 else 0)
    && after["label"] == (if c.caption.Some? then S(c.caption.value) else before["label"])
    && after["active_face_id"] == (if c.active.Some? then S(c.active.value) else before["active_face_id"])
  }

  const LISTED_TEXTS := {"label", "last_opened_at", "last_closed_at", "active_face_id"}

  lemma ListsText(env: Env, now: string, d: Dict, key: string)
    requires key in LISTED_TEXTS
    ensures var listed := NormalizeObject(env, now, d);
            && key in listed && listed[key].S?
            && (key in d && d[key].S? ==> listed[key] == d[key])
  {
    hide NormalizeFaces, Aggregate, Labels, FacesOf;
  }

  lemma ListsNumbers(env: Env, now: string, d: Dict)
    ensures var listed := NormalizeObject(env, now, d);
            && "is_open" in listed && listed["is_open"].B? && "open_count" in listed && listed["open_count"].I?
            && ("is_open" in d && d["is_open"].B? ==> listed["is_open"] == d["is_open"])
            && ("open_count" in d && d["open_count"].I? ==> listed["open_count"] == d["open_count"])
  {
    hide NormalizeFaces, Aggregate, Labels, FacesOf;
  }

  lemma ListedText(env: Env, now: string, later: string, d: Dict, changed: Dict, key: string)
    requires key in LISTED_TEXTS
    ensures var before, after := NormalizeObject(env, now, d), NormalizeObject(env, later, changed);
            && key in before && key in after
            && (SameAt(before, changed, key) ==> after[key] == before[key])
            && (key in changed && changed[key].S? ==> after[key] == changed[key])
  {
    hide NormalizeObject;
    ListsText(env, now, d, key);
    ListsText(env, later, changed, key);
  }

  lemma ListedFields(env: Env, now: string, later: string, record: Dict, c: Change)
    ensures var before := NormalizeObject(env, now, record);
            SetsListed(now, before, NormalizeObject(env, later, Changed(env, now, before, c)), c)
  {
    hide NormalizeObject, NormalizeFaces, FacesOf, Aggregate, Labels, Changed, Faces, AsJson, KeepsOthers;
    var before := NormalizeObject(env, now, record);
    var changed := Changed(env, now, before, c);
    UpdateSetsExactly(env, now, before, c);
    ListsNumbers(env, now, record);
    ListsNumbers(env, later, changed);
    ListedText(env, now, later, record, changed, "label");
    ListedText(env, now, later, record, changed, "last_opened_at");
    ListedText(env, now, later, record, changed, "last_closed_at");
    ListedText(env, now, later, record, changed, "active_face_id");
  }

  /** What an update sets in a listed record is what every later start-up lists. */
  lemma UpdatePersists(env: Env, d: Disk, records: seq<Dict>, op: Op, now: string)
    requires UpperSettles(env) && env.upper("LOW") == "LOW" && Holds(env, d, records)
    requires OpOk(env, op) && op.kind.Update?
    requires Listed(env, op.now, d, op.path).Some?
    ensures var before, after := Listed(env, op.now, d, op.path), Listed(env, now, AfterCall(env, d, op), op.path);
            after.Some? && SetsListed(op.now, before.value, after.value, op.kind.change)
  {
    hide Holds, UpperSettles, AfterCall, Listed, OpOk, NormalizeObject, Changed, SetsListed, Sound, Lookup;
    var next := CallChangesOwn(env, d, records, op, op.path, now);
    ListedIs(env, op.now, d, records, op.path);
    ListedIs(env, now, d, records, op.path);
    var own := Lookup(env, records, op.path).value;
    SoundSettles(env, op.now, now, own);
    ListedFields(env, op.now, op.now, own, op.kind.change);
  }
}
