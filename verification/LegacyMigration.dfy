/**
 Migrating a registry from before the split, over any number of start-ups cut off at
 any file step (vessel_service.py): no Face detail of the legacy index is lost, and
 the finished migration loads it.
 */
module LegacyMigration {
  import opened Wrappers
  import opened Registry
  import opened Settled
  import opened Migration

  /** One start-up: its clock, the keys it would draw, and where power fails, if it does. */
  datatype Start = Start(now: string, newKey: string, cut: bool, saveKey: string, power: nat)

  /** The start-up gets as far as shredding the legacy index. */
  predicate Shreds(a: Start) {
    !a.cut && a.power >= 6
  }

  /** The first start-up that shreds settles what becomes of the index; None when none does. */
  function FirstShred(starts: seq<Start>): Option<Start>
    decreases |starts|
  {
    if starts == [] then None
    else if Shreds(starts[0]) then Some(starts[0])
    else FirstShred(starts[1..])
  }

  function Restart(env: Env, d: Disk, a: Start): Disk {
    AfterLoad(env, a.now, d, a.newKey, a.cut, a.saveKey, a.power)
  }

  function Restarts(env: Env, d: Disk, starts: seq<Start>): Disk
    decreases |starts|
  {
    if starts == [] then d else Restarts(env, Restart(env, d, starts[0]), starts[1..])
  }

  // ---- the legacy index ----

  function RawPath(env: Env, raw: Raw): string {
    match raw
    case Path(path) => path
    case Rec(record) => PathOf(env, record)
  }

  function RawFaces(env: Env, raw: Raw): seq<Dict> {
    match raw
    case Path(_) => []
    case Rec(record) => FacesOf(env, record)
  }

  predicate DistinctLegacy(env: Env, raw: seq<Raw>) {
    (forall i, j | 0 <= i < j < |raw| :: RawPath(env, raw[i]) != RawPath(env, raw[j]))
    && forall r <- raw :: DistinctIds(env, RawFaces(env, r))
  }

  /** The face as loading leaves it, and as loading it once more does. */
  function Once(env: Env, face: Dict): Dict {
    NormalizeFace(env, face)
  }

  function Twice(env: Env, face: Dict): Dict {
    NormalizeFace(env, NormalizeFace(env, face))
  }

  /** `half` holds every sealed field of the legacy face, normalized once, or twice by a retry. */
  predicate HoldsFace(env: Env, face: Dict, half: Dict) {
    half == SealedFace(Once(env, face)) || half == SealedFace(Twice(env, face))
  }

  /** A record that carries everything sealed of a legacy entry. */
  predicate Carries(env: Env, raw: Raw, record: Dict) {
    var legacy, faces := RawFaces(env, raw), FacesOf(env, record);
    && PathOf(env, record) == RawPath(env, raw) && DistinctIds(env, faces)
    && (raw.Rec? ==> Get(record, SEALED_RECORD_FIELD, Null) == GetStr(env, raw.record, SEALED_RECORD_FIELD, ""))
    && |faces| >= |legacy|
    && forall j | 0 <= j < |legacy| ::
         FaceId(env, faces[j]) == FaceId(env, legacy[j]) && HoldsFace(env, legacy[j], SealedFace(faces[j]))
  }

  predicate CarriesAll(env: Env, raw: seq<Raw>, records: seq<Dict>) {
    |records| == |raw| && forall i | 0 <= i < |raw| :: Carries(env, raw[i], records[i])
  }

  lemma CarriesSplits(env: Env, raw: seq<Raw>, records: seq<Dict>)
    requires DistinctLegacy(env, raw) && CarriesAll(env, raw, records)
    ensures Splittable(env, records)
  {
    hide PathOf, FacesOf, HoldsFace;
    forall r | r in records ensures DistinctIds(env, FacesOf(env, r)) {
      var i :| 0 <= i < |records| && records[i] == r;
      assert Carries(env, raw[i], records[i]);
    }
    forall i, j | 0 <= i < j < |records| ensures PathOf(env, records[i]) != PathOf(env, records[j]) {
      assert Carries(env, raw[i], records[i]) && Carries(env, raw[j], records[j]);
    }
  }

  // ---- normalizing again ----

  predicate SameSealed(a: Dict, b: Dict) {
    forall k | k in SEALED_FACE_FIELDS :: (k in a <==> k in b) && (k in a ==> a[k] == b[k])
  }

  lemma SameGet(a: Dict, b: Dict, key: string, default: Json)
    requires SameSealed(a, b) && key in SEALED_FACE_FIELDS
    ensures Get(a, key, default) == Get(b, key, default)
  {
  }

  /** The same face but for what the cleartext index keeps of it. */
  function Hidden(v: FaceView): FaceView {
    v.(id := "", created := "", selector := "")
  }

  lemma HiddenDecides(v: FaceView, w: FaceView)
    requires Hidden(v) == Hidden(w)
    ensures SealedFace(FaceDict(v)) == SealedFace(FaceDict(w))
  {
    hide SealedFace;
    HiddenSameSealed(v, w);
    SealedSameHalves(FaceDict(v), FaceDict(w));
  }

  lemma HiddenSameSealed(v: FaceView, w: FaceView)
    requires Hidden(v) == Hidden(w)
    ensures SameSealed(FaceDict(v), FaceDict(w))
  {
    hide FaceDict;
    FaceDictSealed(v);
    FaceDictSealed(w);
    FaceDictTexts(v, Null);
    FaceDictTexts(w, Null);
    FaceDictNumbers(v, Null);
    FaceDictNumbers(w, Null);
    FaceDictObjects(v, Null);
    FaceDictObjects(w, Null);
    forall k | k in SEALED_FACE_FIELDS ensures Get(FaceDict(v), k, Null) == Get(FaceDict(w), k, Null) {
    }
  }

  lemma FaceDictSealed(v: FaceView)
    ensures forall k | k in SEALED_FACE_FIELDS :: k in FaceDict(v)
  {
  }

  lemma SealedSameHalves(a: Dict, b: Dict)
    requires SameSealed(a, b)
    ensures SealedFace(a) == SealedFace(b)
  {
  }

  lemma SameView(env: Env, a: Dict, b: Dict)
    requires FaceId(env, a) == FaceId(env, b) && SameSealed(a, b)
    ensures Hidden(NormalView(env, a)) == Hidden(NormalView(env, b))
  {
    hide Get, FaceId, SameSealed, NormalizeDummyProfile, NormalizeBinding, NormalizeEmergencyAuth;
    SameGet(a, b, "label", S(DefaultLabel(FaceId(env, a))));
    SameGet(a, b, "last_accessed", S(""));
    SameGet(a, b, "occupancy", I(0));
    SameGet(a, b, "file_count", I(0));
    SameGet(a, b, "status", S("available"));
    SameGet(a, b, "credentials_initialized", B(false));
    SameGet(a, b, "object_binding_initialized", B(false));
    SameGet(a, b, "dummy_profile", D(map[]));
    SameGet(a, b, "object_binding", D(map[]));
    SameGet(a, b, "emergency_auth", D(map[]));
  }

  /** The sealed fields of a normalized face depend on the sealed fields and the id alone. */
  lemma SealedNormalizes(env: Env, a: Dict, b: Dict)
    requires FaceId(env, a) == FaceId(env, b) && SameSealed(a, b)
    ensures SealedFace(NormalizeFace(env, a)) == SealedFace(NormalizeFace(env, b))
  {
    hide *;
    ViewOf(env, a);
    ViewOf(env, b);
    SameView(env, a, b);
    HiddenDecides(NormalView(env, a), NormalView(env, b));
  }

  /** Normalizing settles by the second time. */
  lemma TwiceSettles(env: Env, face: Dict)
    requires UpperSettles(env) && FaceId(env, face) != ""
    ensures NormalizeFace(env, Twice(env, face)) == Twice(env, face)
  {
    hide NormalizeFace, FaceId, Shaped, Get, UpperSettles;
    NormalizedId(env, face);
    var once := NormalizeFace(env, face);
    NormalizedFaceIsShaped(env, once);
    TwiceFills(env, face);
    FaceSettlesExactly(env, Twice(env, face));
  }

  lemma TwiceFills(env: Env, face: Dict)
    ensures Filled(Twice(env, face))
  {
    hide NormalizeFace, NormalizeDummyProfile, NormalizeBinding, NormalizeEmergencyAuth, Get, FaceDict;
    var once := NormalizeFace(env, face);
    var v := NormalView(env, face);
    ViewOf(env, face);
    ViewOf(env, once);
    FaceDictObjects(v, D(map[]));
    FaceDictObjects(NormalView(env, once), D(map[]));
    BindingSettles(env, D(v.binding));
    AuthSettles(env, v.auth);
  }

  /** Once is already enough exactly when the face's binding is missing or an object. */
  lemma OnceSettlesExactly(env: Env, face: Dict)
    requires UpperSettles(env) && FaceId(env, face) != ""
    ensures Once(env, face) == Twice(env, face) <==> Get(face, "object_binding", D(map[])).D?
  {
    hide NormalizeFace, FaceId, Shaped, Get, UpperSettles, FaceDict, NormalizeDummyProfile, NormalizeBinding,
         NormalizeEmergencyAuth;
    NormalizedFaceIsShaped(env, face);
    FaceSettlesExactly(env, Once(env, face));
    ViewOf(env, face);
    FaceDictObjects(NormalView(env, face), D(map[]));
    AuthSettles(env, GetDict(face, "emergency_auth"));
    if Get(face, "object_binding", D(map[])).D? {
      BindingSettles(env, Get(face, "object_binding", D(map[])));
    } else {
      NoBinding(env, Get(face, "object_binding", D(map[])));
    }
  }

  // ---- laying a sealed half over a legacy entry ----

  lemma NormalizedHasSealed(env: Env, face: Dict)
    ensures forall k | k in SEALED_FACE_FIELDS :: k in NormalizeFace(env, face)
  {
    hide NormalizeDummyProfile, NormalizeBinding, NormalizeEmergencyAuth, GetStr, GetInt, GetBool;
  }

  /** Loading a face under its own sealed half gives the face normalized twice. */
  lemma HalfLoadsTwice(env: Env, face: Dict, half: Dict)
    requires UpperSettles(env) && FaceId(env, face) != "" && HoldsFace(env, face, half)
    ensures SealedFace(NormalizeFace(env, face + half)) == SealedFace(Twice(env, face))
    ensures FaceId(env, face + half) == FaceId(env, face)
  {
    hide NormalizeFace, UpperSettles;
    var once := NormalizeFace(env, face);
    NormalizedId(env, face);
    NormalizedId(env, once);
    NormalizedHasSealed(env, face);
    NormalizedHasSealed(env, once);
    TwiceSettles(env, face);
    assert "face_id" !in SEALED_FACE_FIELDS;
    SealedNormalizes(env, face + half, if half == SealedFace(once) then once else Twice(env, face));
  }

  /** Detail by non-empty id, none of it an id. */
  predicate DetailOk(detail: Dict) {
    forall id | id in detail :: id != "" && detail[id].D? && "face_id" !in detail[id].fields
  }

  lemma {:induction false} SealedFacesOk(env: Env, faces: seq<Dict>)
    requires forall f | f in faces :: FaceId(env, f) != ""
    ensures DetailOk(SealedFaces(env, faces))
  {
    hide FaceId;
    if faces != [] {
      SealedFacesOk(env, faces[..|faces| - 1]);
      assert "face_id" !in SEALED_FACE_FIELDS;
    }
  }

  function Overlay(env: Env, face: Dict, detail: Dict): Dict {
    var d := Get(detail, FaceId(env, face), Null);
    if d.D? then face + d.fields else face
  }

  lemma OverlayKeepsId(env: Env, face: Dict, detail: Dict)
    requires DetailOk(detail)
    ensures FaceId(env, Overlay(env, face, detail)) == FaceId(env, face)
    ensures FaceId(env, face) == "" ==> Overlay(env, face, detail) == face
  {
  }

  lemma OverlayFirst(env: Env, items: seq<Json>, detail: Dict)
    requires DetailOk(detail) && items != []
    ensures var rest := Faces(env, Rebuild(env, items[1..], detail));
            Faces(env, Rebuild(env, items, detail))
            == if FaceIn(env, items[0]) == [] then rest else [Overlay(env, FaceIn(env, items[0])[0], detail)] + rest
  {
    hide FaceId, DetailOk;
    var rest := Rebuild(env, items[1..], detail);
    if items[0].D? {
      OverlayKeepsId(env, items[0].fields, detail);
      assert Rebuild(env, items, detail) == [D(Overlay(env, items[0].fields, detail))] + rest;
      assert Rebuild(env, items, detail)[1..] == rest;
    } else {
      assert Rebuild(env, items, detail) == [] + rest == rest;
    }
  }

  /** Rebuilding a face list lays each face's detail over it. */
  lemma {:induction false} OverlayFaces(env: Env, items: seq<Json>, detail: Dict)
    requires DetailOk(detail)
    ensures var was, now := Faces(env, items), Faces(env, Rebuild(env, items, detail));
            |now| == |was| && forall j | 0 <= j < |was| :: now[j] == Overlay(env, was[j], detail)
  {
    if items != [] {
      hide FaceId, DetailOk, Rebuild, Overlay;
      OverlayFaces(env, items[1..], detail);
      OverlayFirst(env, items, detail);
    }
  }

  lemma MergedParts(env: Env, record: Dict, g: Dict)
    ensures var merged := MergeRecord(env, record, Some(SplitSealed(env, g)));
            var was, now := FacesOf(env, record), FacesOf(env, merged);
            && PathOf(env, merged) == PathOf(env, record)
            && (SEALED_RECORD_FIELD in g ==>
                  SEALED_RECORD_FIELD in merged && merged[SEALED_RECORD_FIELD] == g[SEALED_RECORD_FIELD])
            && |now| == |was| && forall j | 0 <= j < |was| ::
               now[j] == Overlay(env, was[j], SealedFaces(env, FacesOf(env, g)))
  {
    hide SealedFaces, Overlay, DetailOk, FaceId;
    var value, own := Get(record, "faces", L([])), Get(g, "faces", L([]));
    if own.L? {
      FacesHaveIds(env, own.items);
    }
    var detail := SealedFaces(env, FacesOf(env, g));
    SealedFacesOk(env, FacesOf(env, g));
    if value.L? {
      OverlayFaces(env, value.items, detail);
    }
  }

  // ---- loading keeps everything sealed ----

  lemma CarriesFirst(env: Env, now: string, raw: Raw)
    requires DistinctIds(env, RawFaces(env, raw))
    ensures Carries(env, raw, NormalizeRecord(env, now, raw))
  {
    hide FaceId, FacesOf, NormalizeFace, DistinctIds, DefaultFace, SealedFace, NormalizeObject, GetStr, PathOf;
    match raw
    case Path(path) =>
      RegisteredFaces(env, now, path);
      NormalizedPath(env, now, raw);
    case Rec(record) =>
      LoadedFaces(env, now, record);
      NormalizedPath(env, now, raw);
      LoadedTexts(env, now, record, Null);
  }

  lemma NormalizedPath(env: Env, now: string, raw: Raw)
    ensures PathOf(env, NormalizeRecord(env, now, raw)) == RawPath(env, raw)
  {
    hide AsJson, DefaultFace, NormalizeFaces, FacesOf, Aggregate, Labels;
  }

  lemma CarriesAgain(env: Env, now: string, record: Dict, g: Dict)
    requires UpperSettles(env) && DistinctIds(env, FacesOf(env, record)) && Carries(env, Rec(record), g)
    ensures Carries(env, Rec(record), NormalizeObject(env, now, MergeRecord(env, record, Some(SplitSealed(env, g)))))
  {
    hide FaceId, FacesOf, NormalizeFace, NormalizeObject, MergeRecord, SplitSealed, SealedFace, SealedFaces,
         UpperSettles, HoldsFace, PathOf;
    var merged := MergeRecord(env, record, Some(SplitSealed(env, g)));
    var legacy, own, faces := FacesOf(env, record), FacesOf(env, g), FacesOf(env, merged);
    MergedParts(env, record, g);
    LoadedFaces(env, now, record);
    forall j | 0 <= j < |legacy|
      ensures FaceId(env, faces[j]) == FaceId(env, legacy[j])
              && HoldsFace(env, legacy[j], SealedFace(NormalizeFace(env, faces[j])))
    {
      SealedFacesFinds(env, own, j);
      HalfLoadsTwice(env, legacy[j], SealedFace(own[j]));
      HoldsTwice(env, legacy[j]);
    }
    SameIds(env, legacy, faces);
    LoadedFaces(env, now, merged);
    NormalizedPath(env, now, Rec(merged));
    LoadedTexts(env, now, merged, Null);
    SettledText(env, g, merged, record);
  }

  lemma HoldsTwice(env: Env, face: Dict)
    ensures HoldsFace(env, face, SealedFace(Twice(env, face)))
  {
  }

  lemma SameIds(env: Env, a: seq<Dict>, b: seq<Dict>)
    requires DistinctIds(env, a) && |a| == |b| && forall j | 0 <= j < |a| :: FaceId(env, a[j]) == FaceId(env, b[j])
    ensures DistinctIds(env, b)
  {
    hide FaceId;
  }

  lemma SettledText(env: Env, g: Dict, merged: Dict, record: Dict)
    requires Get(g, SEALED_RECORD_FIELD, Null) == GetStr(env, record, SEALED_RECORD_FIELD, "")
    requires SEALED_RECORD_FIELD in g ==>
               SEALED_RECORD_FIELD in merged && merged[SEALED_RECORD_FIELD] == g[SEALED_RECORD_FIELD]
    ensures GetStr(env, merged, SEALED_RECORD_FIELD, "") == GetStr(env, record, SEALED_RECORD_FIELD, "")
  {
  }

  lemma {:induction false} LoadRecordsAt(env: Env, now: string, raw: seq<Raw>, sealed: map<string, Dict>)
    ensures var records := LoadRecords(env, now, raw, sealed);
            |records| == |raw| && forall i | 0 <= i < |raw| ::
                records[i] == NormalizeRecord(env, now, Merged(env, raw[i], sealed))
  {
    hide NormalizeRecord, Merged;
    if raw != [] {
      LoadRecordsAt(env, now, raw[1..], sealed);
    }
  }

  /** Sealed halves a migration of the legacy index could have written. */
  ghost predicate CopyOf(env: Env, raw: seq<Raw>, detail: map<string, Dict>) {
    exists records :: CarriesAll(env, raw, records) && detail == SealedRecords(env, records)
  }

  /** Start-ups that see the intact index load its detail, with or without a copy already in the sidecar. */
  lemma LoadedCarries(env: Env, now: string, d: Disk, raw: seq<Raw>)
    requires UpperSettles(env) && DistinctLegacy(env, raw) && d.index == Index(raw)
    requires SealedDetail(d) == map[] || CopyOf(env, raw, SealedDetail(d))
    ensures CarriesAll(env, raw, Loaded(env, now, d))
  {
    hide Carries, SealedDetail, NormalizeObject, FacesOf, PathOf, UpperSettles, SplitSealed, MergeRecord, SealedRecords;
    var sealed, records := SealedDetail(d), Loaded(env, now, d);
    LoadRecordsAt(env, now, raw, sealed);
    if sealed == map[] {
      forall i | 0 <= i < |raw| ensures Carries(env, raw[i], records[i]) {
        CarriesFirst(env, now, raw[i]);
        UnsealedStays(env, raw[i]);
      }
    } else {
      var copied :| CarriesAll(env, raw, copied) && sealed == SealedRecords(env, copied);
      forall i | 0 <= i < |raw| ensures Carries(env, raw[i], records[i]) {
        LoadedCarriesAt(env, now, raw, copied, i);
      }
    }
  }

  lemma UnsealedStays(env: Env, raw: Raw)
    ensures Merged(env, raw, map[]) == raw
  {
  }

  lemma LoadedCarriesAt(env: Env, now: string, raw: seq<Raw>, copied: seq<Dict>, i: nat)
    requires UpperSettles(env) && DistinctLegacy(env, raw) && CarriesAll(env, raw, copied) && i < |raw|
    ensures Carries(env, raw[i], NormalizeRecord(env, now, Merged(env, raw[i], SealedRecords(env, copied))))
  {
    hide NormalizeObject, FacesOf, UpperSettles, SplitSealed, MergeRecord, SealedRecords, HoldsFace, PathOf,
         DistinctIds;
    if raw[i].Rec? {
      CarriesSplits(env, raw, copied);
      SealedRecordsFinds(env, copied, i);
      assert Carries(env, raw[i], copied[i]) && raw[i] in raw;
      CarriesAgain(env, now, raw[i].record, copied[i]);
    } else {
      assert raw[i] in raw;
      CarriesFirst(env, now, raw[i]);
    }
  }

  // ---- any number of start-ups ----

  /** A key drawn anew is not the one an unreadable sidecar was sealed under. */
  predicate FreshKeys(d: Disk, starts: seq<Start>) {
    d.sidecar.Sealed? && d.key != Key(d.sidecar.key) ==> forall a <- starts :: a.newKey != d.sidecar.key
  }

  /** The legacy index is intact; what can be read of the sidecar, if anything, is a copy of its detail. */
  ghost predicate Pending(env: Env, raw: seq<Raw>, d: Disk) {
    d.index == Index(raw) && NeedsMigration(d) && (SealedDetail(d) == map[] || CopyOf(env, raw, SealedDetail(d)))
  }

  /** The legacy index is gone or replaced, and the readable sidecar is a copy of its detail. */
  ghost predicate Past(env: Env, raw: seq<Raw>, d: Disk) {
    && Opens(d)
    && exists records :: CarriesAll(env, raw, records) && SealedDetail(d) == SealedRecords(env, records)
                         && (d.index == Garbage || d.index == Index(PublicRecords(env, records)))
  }

  lemma StartKeepsDetail(env: Env, raw: seq<Raw>, d: Disk, a: Start, rest: seq<Start>)
    requires UpperSettles(env) && DistinctLegacy(env, raw) && Pending(env, raw, d) && FreshKeys(d, [a] + rest)
    ensures FreshKeys(Restart(env, d, a), rest)
    ensures !Shreds(a) ==> Pending(env, raw, Restart(env, d, a))
    ensures Shreds(a) ==> Past(env, raw, Restart(env, d, a)) && (Restart(env, d, a).index == Garbage <==> a.power < 8)
  {
    hide CarriesAll, CarriesSealedFields, LoadRecords, PublicRecords, SealedRecords, UpperSettles, DistinctLegacy;
    var records := Loaded(env, a.now, d);
    LoadedCarries(env, a.now, d, raw);
    LoadedNonempty(env, a.now, raw, SealedDetail(d));
    var s := Restart(env, d, a);
    assert ([a] + rest)[0] == a && forall x <- rest :: x in [a] + rest;
    assert a.newKey == ([a] + rest)[0].newKey;
  }

  /** Once past the legacy index, start-ups change nothing. */
  lemma PastStays(env: Env, raw: seq<Raw>, d: Disk, a: Start)
    requires Past(env, raw, d)
    ensures Restart(env, d, a) == d
  {
    hide CarriesAll, CarriesSealedFields, PublicRecords, SealedRecords, SaveSteps;
    var records :| CarriesAll(env, raw, records) && SealedDetail(d) == SealedRecords(env, records)
                   && (d.index == Garbage || d.index == Index(PublicRecords(env, records)));
    PublicRecordsClean(env, records);
  }

  /** Over any start-ups: the index is pending until the first that shreds, and what that one leaves stays. */
  lemma {:induction false} RestartsKeepDetail(env: Env, raw: seq<Raw>, d: Disk, starts: seq<Start>)
    requires UpperSettles(env) && DistinctLegacy(env, raw) && Pending(env, raw, d) && FreshKeys(d, starts)
    ensures var s, first := Restarts(env, d, starts), FirstShred(starts);
            if first.None? then Pending(env, raw, s)
            else Past(env, raw, s) && (s.index == Garbage <==> first.value.power < 8)
    decreases |starts|
  {
    hide Pending, Past, UpperSettles, DistinctLegacy, Restart, FreshKeys, Shreds;
    if starts != [] {
      assert starts == [starts[0]] + starts[1..];
      StartKeepsDetail(env, raw, d, starts[0], starts[1..]);
      var s := Restart(env, d, starts[0]);
      if Shreds(starts[0]) {
        PastStaysLong(env, raw, s, starts[1..]);
      } else {
        RestartsKeepDetail(env, raw, s, starts[1..]);
      }
    }
  }

  lemma {:induction false} PastStaysLong(env: Env, raw: seq<Raw>, d: Disk, starts: seq<Start>)
    requires Past(env, raw, d)
    ensures Restarts(env, d, starts) == d
    decreases |starts|
  {
    hide Past, Restart;
    if starts != [] {
      PastStays(env, raw, d, starts[0]);
      PastStaysLong(env, raw, d, starts[1..]);
    }
  }

  // ---- the theorems ----

  /** The sidecar holds every sealed field of every Face of the legacy index, under its path and id. */
  predicate HoldsLegacy(env: Env, raw: seq<Raw>, detail: map<string, Dict>) {
    forall i | 0 <= i < |raw| && raw[i].Rec? ::
      RawPath(env, raw[i]) in detail && HoldsRecord(env, raw[i].record, detail[RawPath(env, raw[i])])
  }

  predicate HoldsRecord(env: Env, record: Dict, half: Dict) {
    var faces, detail := FacesOf(env, record), Get(half, "faces", Null);
    && Get(half, SEALED_RECORD_FIELD, Null) == GetStr(env, record, SEALED_RECORD_FIELD, "")
    && detail.D?
    && forall j | 0 <= j < |faces| ::
         var own := Get(detail.fields, FaceId(env, faces[j]), Null);
         own.D? && HoldsFace(env, faces[j], own.fields)
  }

  lemma HalfHolds(env: Env, record: Dict, g: Dict)
    requires Carries(env, Rec(record), g)
    ensures HoldsRecord(env, record, SplitSealed(env, g))
  {
    hide FaceId, FacesOf, SealedFace, SealedFaces, HoldsFace, PathOf, GetStr;
    var legacy, own := FacesOf(env, record), FacesOf(env, g);
    assert Get(SplitSealed(env, g), "faces", Null) == D(SealedFaces(env, own));
    forall j | 0 <= j < |legacy|
      ensures Get(SealedFaces(env, own), FaceId(env, legacy[j]), Null) == D(SealedFace(own[j]))
              && HoldsFace(env, legacy[j], SealedFace(own[j]))
    {
      SealedFacesFinds(env, own, j);
    }
  }

  lemma CopyHolds(env: Env, raw: seq<Raw>, records: seq<Dict>)
    requires DistinctLegacy(env, raw) && CarriesAll(env, raw, records)
    ensures HoldsLegacy(env, raw, SealedRecords(env, records))
  {
    hide SplitSealed, SealedRecords, DistinctIds, HoldsRecord, FacesOf, PathOf, HoldsFace;
    CarriesSplits(env, raw, records);
    forall i | 0 <= i < |raw| && raw[i].Rec?
      ensures RawPath(env, raw[i]) in SealedRecords(env, records)
              && HoldsRecord(env, raw[i].record, SealedRecords(env, records)[RawPath(env, raw[i])])
    {
      assert Carries(env, raw[i], records[i]);
      SealedRecordsFinds(env, records, i);
      HalfHolds(env, raw[i].record, records[i]);
    }
  }

  /**
   From a legacy index with distinct paths and face ids, and nothing readable in the
   sidecar, after any number of start-ups, each cut off anywhere: the index is intact,
   or the readable sidecar holds every sealed field of every Face it listed, as
   normalizing spells them.
   */
  lemma MigrationNeverLosesDetail(env: Env, raw: seq<Raw>, d: Disk, starts: seq<Start>)
    requires UpperSettles(env) && DistinctLegacy(env, raw) && FreshKeys(d, starts)
    requires d.index == Index(raw) && NeedsMigration(d) && SealedDetail(d) == map[]
    ensures var s := Restarts(env, d, starts);
            s.index == d.index || HoldsLegacy(env, raw, SealedDetail(s))
  {
    hide UpperSettles, DistinctLegacy, HoldsLegacy, CarriesAll, NeedsMigration, Restarts, SealedDetail;
    RestartsKeepDetail(env, raw, d, starts);
    var s := Restarts(env, d, starts);
    if Past(env, raw, s) {
      var records :| CarriesAll(env, raw, records) && SealedDetail(s) == SealedRecords(env, records)
                     && (s.index == Garbage || s.index == Index(PublicRecords(env, records)));
      CopyHolds(env, raw, records);
    }
  }

  /** The loaded records list every legacy Face in its place, its sealed fields as normalizing settles them. */
  predicate LoadsLegacy(env: Env, raw: seq<Raw>, records: seq<Dict>) {
    |records| == |raw| && forall i | 0 <= i < |raw| :: LoadsEntry(env, raw[i], records[i])
  }

  predicate LoadsEntry(env: Env, raw: Raw, record: Dict) {
    var legacy, faces := RawFaces(env, raw), FacesOf(env, record);
    && PathOf(env, record) == RawPath(env, raw)
    && (raw.Rec? ==> Get(record, SEALED_RECORD_FIELD, Null) == GetStr(env, raw.record, SEALED_RECORD_FIELD, ""))
    && |faces| >= |legacy|
    && forall j | 0 <= j < |legacy| ::
         FaceId(env, faces[j]) == FaceId(env, legacy[j]) && SealedFace(faces[j]) == SealedFace(Twice(env, legacy[j]))
  }

  lemma SameHalves(a: Dict, b: Dict)
    requires SealedFace(a) == SealedFace(b)
    ensures SameSealed(a, b)
  {
    forall k | k in SEALED_FACE_FIELDS ensures (k in a <==> k in b) && (k in a ==> a[k] == b[k]) {
      assert k in a <==> k in SealedFace(a);
      assert k in b <==> k in SealedFace(b);
      assert k in a ==> SealedFace(a)[k] == a[k];
    }
  }

  lemma HoldsLoads(env: Env, face: Dict, g: Dict)
    requires UpperSettles(env) && FaceId(env, face) != "" && FaceId(env, g) == FaceId(env, face)
             && HoldsFace(env, face, SealedFace(g))
    ensures SealedFace(NormalizeFace(env, g)) == SealedFace(Twice(env, face))
  {
    hide NormalizeFace, FaceId, UpperSettles;
    var once := NormalizeFace(env, face);
    NormalizedId(env, face);
    NormalizedId(env, once);
    TwiceSettles(env, face);
    var other := if SealedFace(g) == SealedFace(once) then once else Twice(env, face);
    SameHalves(g, other);
    SealedNormalizes(env, g, other);
  }

  lemma CarriedLoads(env: Env, now: string, raw: Raw, g: Dict)
    requires UpperSettles(env) && Carries(env, raw, g)
    ensures LoadsEntry(env, raw, NormalizeObject(env, now, g))
  {
    hide FaceId, FacesOf, NormalizeFace, NormalizeObject, SealedFace, UpperSettles, HoldsFace, PathOf, Twice,
         DistinctIds;
    var legacy, own := RawFaces(env, raw), FacesOf(env, g);
    LoadedFaces(env, now, g);
    NormalizedPath(env, now, Rec(g));
    LoadedTexts(env, now, g, Null);
    if raw.Rec? {
      LoadedFaces(env, now, raw.record);
      SettledText(env, g, g, raw.record);
    }
    forall j | 0 <= j < |legacy| ensures SealedFace(NormalizeFace(env, own[j])) == SealedFace(Twice(env, legacy[j])) {
      HoldsLoads(env, legacy[j], own[j]);
    }
  }

  lemma {:induction false} NormalizeAllAt(env: Env, now: string, records: seq<Dict>)
    ensures var n := NormalizeAll(env, now, records);
            |n| == |records| && forall i | 0 <= i < |records| :: n[i] == NormalizeObject(env, now, records[i])
  {
    hide NormalizeObject;
    if records != [] {
      NormalizeAllAt(env, now, records[1..]);
    }
  }

  /**
   What becomes of the index is decided by the first start-up that shreds it. Until
   there is one, the index is intact and to be migrated. If that start-up was cut off
   before the new index was written, there is no index from then on, and no Vessel is
   listed. Otherwise the migration is over for good, and loads every legacy Face with
   its detail.
   */
  lemma MigrationFinishes(env: Env, raw: seq<Raw>, d: Disk, starts: seq<Start>, again: Start, now: string)
    requires UpperSettles(env) && DistinctLegacy(env, raw) && FreshKeys(d, starts)
    requires d.index == Index(raw) && NeedsMigration(d) && SealedDetail(d) == map[]
    ensures var s, first := Restarts(env, d, starts), FirstShred(starts);
            && (s.index == d.index <==> first.None?)
            && (s.index == Garbage <==> first.Some? && first.value.power < 8)
            && (first.Some? ==> Restart(env, s, again) == s)
            && (first.Some? && first.value.power < 8 ==> Loaded(env, now, s) == [])
            && (first.Some? && first.value.power >= 8 ==>
                  !NeedsMigration(s) && LoadsLegacy(env, raw, Loaded(env, now, s)))
  {
    hide UpperSettles, DistinctLegacy, Restarts, Restart, SealedDetail, Carries, LoadsLegacy, FirstShred,
         LoadRecords, CarriesSealedFields, SealedRecords, PublicRecords, NormalizeAll;
    RestartsKeepDetail(env, raw, d, starts);
    var s := Restarts(env, d, starts);
    if FirstShred(starts).Some? {
      PastStays(env, raw, s, again);
      var records :| CarriesAll(env, raw, records) && SealedDetail(s) == SealedRecords(env, records)
                     && (s.index == Garbage || s.index == Index(PublicRecords(env, records)));
      PublicRecordsClean(env, records);
      CopyLoads(env, now, raw, records);
    }
  }

  /** Records that carry the legacy detail, once saved, load it. */
  lemma CopyLoads(env: Env, now: string, raw: seq<Raw>, records: seq<Dict>)
    requires UpperSettles(env) && DistinctLegacy(env, raw) && CarriesAll(env, raw, records)
    ensures LoadsLegacy(env, raw, LoadRecords(env, now, PublicRecords(env, records), SealedRecords(env, records)))
  {
    hide UpperSettles, DistinctLegacy, Carries, LoadsEntry, NormalizeObject, LoadRecords, SealedRecords, PublicRecords,
         NormalizeAll;
    CarriesSplits(env, raw, records);
    SaveLoadRoundTrip(env, now, records);
    NormalizeAllAt(env, now, records);
    forall i | 0 <= i < |raw| ensures LoadsEntry(env, raw[i], NormalizeObject(env, now, records[i])) {
      CarriedLoads(env, now, raw[i], records[i]);
    }
  }

  /**
   The lost index does happen: one start-up whose power fails after the shred, at its
   sixth file step. Every later one lists nothing, though the sidecar holds all detail.
   */
  lemma CutAfterShredLosesIndex(env: Env, raw: seq<Raw>, d: Disk, a: Start, later: seq<Start>, now: string)
    requires UpperSettles(env) && DistinctLegacy(env, raw) && FreshKeys(d, [a] + later)
    requires d.index == Index(raw) && NeedsMigration(d) && SealedDetail(d) == map[]
    requires !a.cut && a.power == 6
    ensures var s := Restarts(env, d, [a] + later);
            s.index == Garbage && Loaded(env, now, s) == [] && HoldsLegacy(env, raw, SealedDetail(s))
  {
    hide UpperSettles, DistinctLegacy, HoldsLegacy, NeedsMigration, Restarts, SealedDetail, LoadsLegacy, Restart,
         FreshKeys;
    assert ([a] + later)[0] == a;
    assert FirstShred([a] + later) == Some(a);
    MigrationFinishes(env, raw, d, [a] + later, a, now);
    MigrationNeverLosesDetail(env, raw, d, [a] + later);
  }
}
