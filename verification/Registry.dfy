/**
 The Vessel registry of vessel_service.py and vessel_registry_seal.py: records are
 normalized on load and split on save into a cleartext index and a sealed sidecar.
 */
module Registry {
  import opened Wrappers
  import opened Text

  datatype Json =
    | S(s: string) | I(n: int) | R(r: real) | B(b: bool) | Null | L(items: seq<Json>) | D(fields: map<string, Json>)

  type Dict = map<string, Json>

  /** Python's text and number conversions that no property here depends on. */
  datatype Env = Env(render: Json -> string, truncate: real -> int, parseInt: string -> Option<int>,
                     parseFloat: string -> Option<real>, upper: string -> string)

  /** An entry of the index: a bare path of the oldest format, or an object. */
  datatype Raw = Path(path: string) | Rec(record: Dict)

  const SEALED_FACE_FIELDS := {"label", "last_accessed", "occupancy", "file_count", "status", "credentials_initialized",
                               "object_binding_initialized", "dummy_profile", "object_binding", "emergency_auth"}
  const SEALED_RECORD_FIELD := "active_face_id"
  const DERIVED_RECORD_FIELDS := {"face_labels", "dummy_profile"}

  // ---- conversions ----

  function Get(d: Dict, key: string, default: Json): Json {
    if key in d then d[key] else default
  }

  function StrValue(env: Env, j: Json): string {
    if j.S? then j.s else env.render(j)
  }

  function IntValue(env: Env, j: Json): int {
    match j
    case B(b) => if b then 1 else 0
    case I(n) => n
    case R(r) => env.truncate(r)
    case S(s) => if env.parseInt(s).Some? then env.parseInt(s).value else 0
    case _ => 0
  }

  function FloatValue(env: Env, j: Json): real {
    match j
    case B(b) => if b then 1.0 else 0.0
    case I(n) => n as real
    case R(r) => r
    case S(s) => if env.parseFloat(s).Some? then env.parseFloat(s).value else 0.0
    case _ => 0.0
  }

  predicate Truthy(j: Json) {
    match j
    case S(s) => s != ""
    case I(n) => n != 0
    case R(r) => r != 0.0
    case B(b) => b
    case Null => false
    case L(items) => items != []
    case D(fields) => fields != map[]
  }

  function GetStr(env: Env, d: Dict, key: string, default: string): Json {
    S(StrValue(env, Get(d, key, S(default))))
  }

  function GetInt(env: Env, d: Dict, key: string): Json {
    I(IntValue(env, Get(d, key, I(0))))
  }

  function GetFloat(env: Env, d: Dict, key: string): Json {
    R(FloatValue(env, Get(d, key, R(0.0))))
  }

  function GetBool(d: Dict, key: string): Json {
    B(Truthy(Get(d, key, B(false))))
  }

  /** The object under a key, or an empty one. */
  function GetDict(d: Dict, key: string): Dict {
    if Get(d, key, D(map[])).D? then Get(d, key, D(map[])).fields else map[]
  }

  function IntDict(env: Env, j: Json): map<string, int> {
    if j.D? then map k | k in j.fields :: IntValue(env, j.fields[k]) else map[]
  }

  function IntsAsJson(m: map<string, int>): Json {
    D(map k | k in m :: I(m[k]))
  }

  function FloatList(env: Env, j: Json): Json {
    if j.L? then L(seq(|j.items|, i requires 0 <= i < |j.items| => R(FloatValue(env, j.items[i])))) else L([])
  }

  // ---- normalizers ----

  function NormalizeDummyProfile(env: Env, d: Dict): Dict {
    map["dummy_file_count" := GetInt(env, d, "dummy_file_count"),
        "dummy_total_size" := GetInt(env, d, "dummy_total_size"),
        "occupancy_ratio" := GetFloat(env, d, "occupancy_ratio"),
        "file_type_distribution" := IntsAsJson(IntDict(env, Get(d, "file_type_distribution", D(map[])))),
        "plausibility_score" := GetInt(env, d, "plausibility_score"),
        "plausibility_level" := S(env.upper(StrValue(env, Get(d, "plausibility_level", S("LOW"))))),
        "last_updated_at" := GetStr(env, d, "last_updated_at", "")]
  }

  /** A missing binding reads as an empty object, which fills out; a value of another kind stays empty. */
  function NormalizeBinding(env: Env, j: Json): Dict {
    if !j.D? then map[]
    else
      var d := j.fields;
      map["source_type" := GetStr(env, d, "source_type", ""),
          "average_hash" := GetStr(env, d, "average_hash", ""),
          "edge_hash" := GetStr(env, d, "edge_hash", ""),
          "brightness_histogram" := FloatList(env, Get(d, "brightness_histogram", L([]))),
          "color_histogram" := FloatList(env, Get(d, "color_histogram", L([]))),
          "threshold" := GetFloat(env, d, "threshold"),
          "fingerprint_id" := GetStr(env, d, "fingerprint_id", ""),
          "updated_at" := GetStr(env, d, "updated_at", "")]
  }

  function NormalizeEmergencyAuth(env: Env, d: Dict): Dict {
    map["salt_b64" := GetStr(env, d, "salt_b64", ""), "hash_b64" := GetStr(env, d, "hash_b64", ""),
        "updated_at" := GetStr(env, d, "updated_at", ""),
        "kdf_n" := GetInt(env, d, "kdf_n"), "kdf_r" := GetInt(env, d, "kdf_r"), "kdf_p" := GetInt(env, d, "kdf_p")]
  }

  function FaceId(env: Env, face: Dict): string {
    StrValue(env, Get(face, "face_id", S("")))
  }

  function DefaultLabel(id: string): string {
    if id == "face_a" then "Disclosure Face 1" else if id == "face_b" then "Disclosure Face 2" else ""
  }

  function DefaultSelector(id: string): string {
    if id == "face_a" then "a" else if id == "face_b" then "b" else ""
  }

  function NormalizeFace(env: Env, face: Dict): Dict {
    var id := FaceId(env, face);
    map["face_id" := S(id),
        "label" := GetStr(env, face, "label", DefaultLabel(id)),
        "created_at" := GetStr(env, face, "created_at", ""),
        "last_accessed" := GetStr(env, face, "last_accessed", ""),
        "occupancy" := GetInt(env, face, "occupancy"),
        "file_count" := GetInt(env, face, "file_count"),
        "status" := GetStr(env, face, "status", "available"),
        "selector" := GetStr(env, face, "selector", DefaultSelector(id)),
        "credentials_initialized" := GetBool(face, "credentials_initialized"),
        "object_binding_initialized" := GetBool(face, "object_binding_initialized"),
        "dummy_profile" := D(NormalizeDummyProfile(env, GetDict(face, "dummy_profile"))),
        "object_binding" := D(NormalizeBinding(env, Get(face, "object_binding", D(map[])))),
        "emergency_auth" := D(NormalizeEmergencyAuth(env, GetDict(face, "emergency_auth")))]
  }

  function DefaultProfile(): Dict {
    map["dummy_file_count" := I(0), "dummy_total_size" := I(0), "occupancy_ratio" := R(0.0),
        "file_type_distribution" := D(map[]), "plausibility_score" := I(0),
        "plausibility_level" := S("LOW"), "last_updated_at" := S("")]
  }

  function DefaultFace(id: string, now: string): Dict {
    map["face_id" := S(id), "label" := S(DefaultLabel(id)), "created_at" := S(now), "last_accessed" := S(""),
        "occupancy" := I(0), "file_count" := I(0), "status" := S("available"), "selector" := S(DefaultSelector(id)),
        "credentials_initialized" := B(false), "object_binding_initialized" := B(false),
        "dummy_profile" := D(DefaultProfile()), "object_binding" := D(map[]), "emergency_auth" := D(map[])]
  }

  /** The items of a face list that are objects with an id; the others are dropped everywhere. */
  function Faces(env: Env, items: seq<Json>): seq<Dict> {
    if items == [] then [] else FaceIn(env, items[0]) + Faces(env, items[1..])
  }

  function FaceIn(env: Env, item: Json): seq<Dict> {
    if item.D? && FaceId(env, item.fields) != "" then [item.fields] else []
  }

  function FacesOf(env: Env, record: Dict): seq<Dict> {
    var value := Get(record, "faces", L([]));
    if value.L? then Faces(env, value.items) else []
  }

  function NormalizeEach(env: Env, faces: seq<Dict>): seq<Dict> {
    if faces == [] then [] else [NormalizeFace(env, faces[0])] + NormalizeEach(env, faces[1..])
  }

  predicate HasFace(env: Env, faces: seq<Dict>, id: string) {
    exists f :: f in faces && FaceId(env, f) == id
  }

  /** The listed faces, then whichever of the two standard ones is missing. */
  function NormalizeFaces(env: Env, now: string, faces: seq<Dict>): seq<Dict> {
    NormalizeEach(env, faces)
    + (if HasFace(env, faces, "face_a") then [] else [DefaultFace("face_a", now)])
    + (if HasFace(env, faces, "face_b") then [] else [DefaultFace("face_b", now)])
  }

  function Labels(env: Env, faces: seq<Dict>): seq<Json> {
    if faces == [] then [] else [GetStr(env, faces[0], "label", "")] + Labels(env, faces[1..])
  }

  // ---- aggregate profile ----

  datatype Totals = Totals(files: int, size: int, ratio: real, distribution: map<string, int>, score: int,
                           level: string, updated: string)

  function Rank(level: string): int {
    if level == "MEDIUM" then 1 else if level == "HIGH" then 2 else 0
  }

  function AddCounts(a: map<string, int>, b: map<string, int>): map<string, int> {
    map k | k in a.Keys + b.Keys :: (if k in a then a[k] else 0) + (if k in b then b[k] else 0)
  }

  function AddFace(env: Env, t: Totals, face: Dict): Totals {
    var p := NormalizeDummyProfile(env, GetDict(face, "dummy_profile"));
    var level, updated := p["plausibility_level"].s, p["last_updated_at"].s;
    Totals(t.files + p["dummy_file_count"].n, t.size + p["dummy_total_size"].n, t.ratio + p["occupancy_ratio"].r,
           AddCounts(t.distribution, IntDict(env, p["file_type_distribution"])),
           if p["plausibility_score"].n > t.score then p["plausibility_score"].n else t.score,
           if Rank(level) > Rank(t.level) then level else t.level,
           if TextLeq(updated, t.updated) then t.updated else updated)
  }

  const NO_TOTALS := Totals(0, 0, 0.0, map[], 0, "LOW", "")

  function AddFaces(env: Env, t: Totals, faces: seq<Dict>): Totals
    decreases |faces|
  {
    if faces == [] then t else AddFaces(env, AddFace(env, t, faces[0]), faces[1..])
  }

  function Aggregate(env: Env, faces: seq<Dict>): Dict {
    var t := AddFaces(env, NO_TOTALS, faces);
    map["dummy_file_count" := I(t.files), "dummy_total_size" := I(t.size), "occupancy_ratio" := R(t.ratio),
        "file_type_distribution" := IntsAsJson(t.distribution), "plausibility_score" := I(t.score),
        "plausibility_level" := S(t.level), "last_updated_at" := S(t.updated)]
  }

  function AsJson(faces: seq<Dict>): Json {
    L(seq(|faces|, i requires 0 <= i < |faces| => D(faces[i])))
  }

  function NormalizeObject(env: Env, now: string, d: Dict): Dict {
    var faces := NormalizeFaces(env, now, FacesOf(env, d));
    map["path" := GetStr(env, d, "path", ""), "label" := GetStr(env, d, "label", ""),
        "face_labels" := L(Labels(env, faces)), "faces" := AsJson(faces),
        "dummy_profile" := D(Aggregate(env, faces)),
        "is_open" := GetBool(d, "is_open"), "open_count" := GetInt(env, d, "open_count"),
        "last_opened_at" := GetStr(env, d, "last_opened_at", ""),
        "last_closed_at" := GetStr(env, d, "last_closed_at", ""),
        "active_face_id" := GetStr(env, d, "active_face_id", "")]
  }

  function NormalizeRecord(env: Env, now: string, raw: Raw): Dict {
    match raw
    case Path(path) =>
      map["path" := S(path), "label" := S(""),
          "face_labels" := L([S(DefaultLabel("face_a")), S(DefaultLabel("face_b"))]),
          "faces" := AsJson([DefaultFace("face_a", now), DefaultFace("face_b", now)]),
          "is_open" := B(false), "open_count" := I(0), "last_opened_at" := S(""), "last_closed_at" := S(""),
          "active_face_id" := S("")]
    case Rec(d) => NormalizeObject(env, now, d)
  }

  function PathOf(env: Env, record: Dict): string {
    StrValue(env, Get(record, "path", S("")))
  }

  // ---- split and merge ----

  function PublicFace(face: Dict): Dict {
    face - SEALED_FACE_FIELDS
  }

  function SealedFace(face: Dict): Dict {
    map k | k in face && k in SEALED_FACE_FIELDS :: face[k]
  }

  function PublicFaces(faces: seq<Dict>): seq<Json> {
    if faces == [] then [] else [D(PublicFace(faces[0]))] + PublicFaces(faces[1..])
  }

  /** Detail by face id, filled in list order. */
  function SealedFaces(env: Env, faces: seq<Dict>): Dict {
    if faces == [] then map[]
    else SealedFaces(env, faces[..|faces| - 1])[FaceId(env, faces[|faces| - 1]) := D(SealedFace(faces[|faces| - 1]))]
  }

  function SplitPublic(env: Env, record: Dict): Dict {
    (record - ({SEALED_RECORD_FIELD, "faces"} + DERIVED_RECORD_FIELDS))["faces" := L(PublicFaces(FacesOf(env, record)))]
  }

  function SplitSealed(env: Env, record: Dict): Dict {
    var faces: Dict := map["faces" := D(SealedFaces(env, FacesOf(env, record)))];
    if SEALED_RECORD_FIELD in record then faces[SEALED_RECORD_FIELD := record[SEALED_RECORD_FIELD]] else faces
  }

  lemma FacesNext(env: Env, items: seq<Json>, i: nat, done: seq<Dict>)
    requires i < |items|
    ensures done + Faces(env, items[i..]) == done + FaceIn(env, items[i]) + Faces(env, items[i + 1..])
  {
    assert items[i..][0] == items[i] && items[i..][1..] == items[i + 1..];
  }

  lemma SplitNext(env: Env, done: seq<Dict>, face: Dict)
    ensures PublicFaces(done + [face]) == PublicFaces(done) + [D(PublicFace(face))]
    ensures SealedFaces(env, done + [face]) == SealedFaces(env, done)[FaceId(env, face) := D(SealedFace(face))]
  {
    hide FaceId;
    PublicFacesAppend(done, face);
    assert (done + [face])[..|done|] == done;
  }

  method SplitFaces(env: Env, items: seq<Json>) returns (publicFaces: seq<Json>, sealedFaces: Dict)
    ensures publicFaces == PublicFaces(Faces(env, items)) && sealedFaces == SealedFaces(env, Faces(env, items))
  {
    ghost var done: seq<Dict> := [];
    publicFaces, sealedFaces := [], map[];
    NoFaces(env);
    assert items[0..] == items && done + Faces(env, items) == Faces(env, items);
    hide PublicFace, SealedFace, FaceId, Faces, PublicFaces, SealedFaces;
    for i := 0 to |items|
      invariant Faces(env, items) == done + Faces(env, items[i..])
      invariant publicFaces == PublicFaces(done) && sealedFaces == SealedFaces(env, done)
    {
      FacesNext(env, items, i, done);
      if items[i].D? {
        var face := items[i].fields;
        var id := FaceId(env, face);
        if id != "" {
          SplitNext(env, done, face);
          publicFaces := publicFaces + [D(PublicFace(face))];
          sealedFaces := sealedFaces[id := D(SealedFace(face))];
          done := done + [face];
        }
      }
    }
    assert items[|items|..] == [] && done + [] == done;
    NoFaces(env);
  }

  method SplitRecord(env: Env, record: Dict) returns (public: Dict, sealed: Dict)
    ensures public == SplitPublic(env, record) && sealed == SplitSealed(env, record)
  {
    hide Faces, PublicFaces, SealedFaces;
    public := record - ({SEALED_RECORD_FIELD, "faces"} + DERIVED_RECORD_FIELDS);
    var sealedFaces: Dict := map[];
    var publicFaces: seq<Json> := [];
    var rawFaces := Get(record, "faces", L([]));
    if rawFaces.L? {
      publicFaces, sealedFaces := SplitFaces(env, rawFaces.items);
    } else {
      NoFaces(env);
    }
    public := public["faces" := L(publicFaces)];
    sealed := map["faces" := D(sealedFaces)];
    if SEALED_RECORD_FIELD in record {
      sealed := sealed[SEALED_RECORD_FIELD := record[SEALED_RECORD_FIELD]];
    }
  }

  lemma NoFaces(env: Env)
    ensures PublicFaces([]) == [] && SealedFaces(env, []) == map[] && Faces(env, []) == []
  {
  }

  lemma {:induction false} PublicFacesAppend(faces: seq<Dict>, face: Dict)
    ensures PublicFaces(faces + [face]) == PublicFaces(faces) + [D(PublicFace(face))]
  {
    if faces == [] {
      assert faces + [face] == [face] && [face][1..] == [];
    } else {
      assert (faces + [face])[1..] == faces[1..] + [face];
      PublicFacesAppend(faces[1..], face);
    }
  }

  /** Each object of the list with its detail laid over it; other items dropped. */
  function Rebuild(env: Env, items: seq<Json>, detail: Dict): seq<Json> {
    if items == [] then [] else RebuildOne(env, items[0], detail) + Rebuild(env, items[1..], detail)
  }

  function RebuildOne(env: Env, item: Json, detail: Dict): seq<Json> {
    if !item.D? then []
    else
      var d := Get(detail, FaceId(env, item.fields), Null);
      [D(if d.D? then item.fields + d.fields else item.fields)]
  }

  method RebuildFaces(env: Env, items: seq<Json>, detail: Dict) returns (rebuilt: seq<Json>)
    ensures rebuilt == Rebuild(env, items, detail)
  {
    hide FaceId, Get;
    rebuilt := [];
    for i := 0 to |items|
      invariant Rebuild(env, items, detail) == rebuilt + Rebuild(env, items[i..], detail)
    {
      RebuildNext(env, items, i, detail, rebuilt);
      if items[i].D? {
        var face := items[i].fields;
        var d := Get(detail, FaceId(env, face), Null);
        rebuilt := rebuilt + [D(if d.D? then face + d.fields else face)];
      }
    }
    assert items[|items|..] == [] && rebuilt + [] == rebuilt;
  }

  lemma RebuildNext(env: Env, items: seq<Json>, i: nat, detail: Dict, done: seq<Json>)
    requires i < |items|
    ensures done + Rebuild(env, items[i..], detail)
            == done + RebuildOne(env, items[i], detail) + Rebuild(env, items[i + 1..], detail)
  {
    assert items[i..][0] == items[i] && items[i..][1..] == items[i + 1..];
  }

  function MergeRecord(env: Env, public: Dict, sealed: Option<Dict>): Dict {
    if sealed.None? then public
    else
      var merged := if SEALED_RECORD_FIELD !in sealed.value then public
                    else public[SEALED_RECORD_FIELD := sealed.value[SEALED_RECORD_FIELD]];
      var detail, faces := Get(sealed.value, "faces", Null), Get(merged, "faces", Null);
      if detail.D? && faces.L? then merged["faces" := L(Rebuild(env, faces.items, detail.fields))] else merged
  }

  predicate CarriesSealedFields(raw: Raw) {
    raw.Rec?
    && (SEALED_RECORD_FIELD in raw.record
        || (var faces := Get(raw.record, "faces", L([]));
            faces.L? && exists f :: f in faces.items && f.D? && exists k :: k in SEALED_FACE_FIELDS && k in f.fields))
  }

  /** Nothing the cleartext half keeps belongs in the seal, whatever the record held. */
  lemma PublicCarriesNothingSealed(env: Env, record: Dict)
    ensures !CarriesSealedFields(Rec(SplitPublic(env, record)))
    ensures forall k | k in DERIVED_RECORD_FIELDS :: k !in SplitPublic(env, record)
  {
    PublicFacesClean(FacesOf(env, record));
  }

  lemma {:induction false} PublicFacesClean(faces: seq<Dict>)
    ensures forall f | f in PublicFaces(faces) :: f.D? && forall k | k in SEALED_FACE_FIELDS :: k !in f.fields
  {
    if faces != [] {
      PublicFacesClean(faces[1..]);
    }
  }

  predicate DistinctIds(env: Env, faces: seq<Dict>) {
    forall i, j | 0 <= i < j < |faces| :: FaceId(env, faces[i]) != FaceId(env, faces[j])
  }

  lemma {:induction false} SealedFacesFinds(env: Env, faces: seq<Dict>, i: nat)
    requires DistinctIds(env, faces) && i < |faces|
    ensures Get(SealedFaces(env, faces), FaceId(env, faces[i]), Null) == D(SealedFace(faces[i]))
  {
    hide SealedFace;
    var n := |faces| - 1;
    if i < n {
      SealedFacesFinds(env, faces[..n], i);
    }
  }

  /** The two halves of a face are a partition of it. */
  lemma FaceHalves(env: Env, face: Dict)
    ensures PublicFace(face) + SealedFace(face) == face
    ensures FaceId(env, PublicFace(face)) == FaceId(env, face)
  {
    assert "face_id" !in SEALED_FACE_FIELDS;
  }

  lemma {:induction false} RebuildRestores(env: Env, faces: seq<Dict>, detail: Dict)
    requires forall f | f in faces :: FaceId(env, f) != "" && Get(detail, FaceId(env, f), Null) == D(SealedFace(f))
    ensures Faces(env, Rebuild(env, PublicFaces(faces), detail)) == faces
  {
    hide PublicFace, SealedFace, FaceId;
    if faces != [] {
      var f := faces[0];
      assert f in faces;
      FaceHalves(env, f);
      RebuildRestores(env, faces[1..], detail);
      var public := PublicFaces(faces);
      assert public[0] == D(PublicFace(f)) && public[1..] == PublicFaces(faces[1..]);
      var rebuilt := Rebuild(env, public, detail);
      assert rebuilt[0] == D(f) && rebuilt[1..] == Rebuild(env, public[1..], detail);
    }
  }

  lemma {:induction false} FacesHaveIds(env: Env, items: seq<Json>)
    ensures forall f | f in Faces(env, items) :: FaceId(env, f) != ""
  {
    if items != [] {
      FacesHaveIds(env, items[1..]);
    }
  }

  /** Merging the halves gives back every face, and every other field that is not derived. */
  lemma MergeRestores(env: Env, record: Dict)
    requires DistinctIds(env, FacesOf(env, record))
    ensures var merged := MergeRecord(env, SplitPublic(env, record), Some(SplitSealed(env, record)));
            && FacesOf(env, merged) == FacesOf(env, record)
            && forall k | k != "faces" && k !in DERIVED_RECORD_FIELDS ::
                 (k in merged <==> k in record) && (k in record ==> merged[k] == record[k])
  {
    hide FaceId, PublicFace, SealedFace;
    var faces := FacesOf(env, record);
    var detail := SealedFaces(env, faces);
    var value := Get(record, "faces", L([]));
    if value.L? {
      FacesHaveIds(env, value.items);
    }
    forall f | f in faces ensures FaceId(env, f) != "" && Get(detail, FaceId(env, f), Null) == D(SealedFace(f)) {
      var i :| 0 <= i < |faces| && faces[i] == f;
      SealedFacesFinds(env, faces, i);
    }
    RebuildRestores(env, faces, detail);
  }

  /** Splitting, merging and normalizing a record is just normalizing it: labels and aggregate are recomputed. */
  lemma SplitMergeNormalizes(env: Env, now: string, record: Dict)
    requires DistinctIds(env, FacesOf(env, record))
    ensures NormalizeObject(env, now, MergeRecord(env, SplitPublic(env, record), Some(SplitSealed(env, record))))
         == NormalizeObject(env, now, record)
  {
    hide FacesOf, SplitPublic, SplitSealed, MergeRecord, NormalizeFaces, Aggregate, Labels, GetStr, GetInt, GetBool;
    MergeRestores(env, record);
    var merged := MergeRecord(env, SplitPublic(env, record), Some(SplitSealed(env, record)));
    SameField(env, merged, record, "path");
    SameField(env, merged, record, "label");
    SameField(env, merged, record, "is_open");
    SameField(env, merged, record, "open_count");
    SameField(env, merged, record, "last_opened_at");
    SameField(env, merged, record, "last_closed_at");
    SameField(env, merged, record, "active_face_id");
  }

  lemma SameField(env: Env, a: Dict, b: Dict, key: string)
    requires (key in a <==> key in b) && (key in a ==> a[key] == b[key])
    ensures GetStr(env, a, key, "") == GetStr(env, b, key, "") && GetInt(env, a, key) == GetInt(env, b, key)
            && GetBool(a, key) == GetBool(b, key)
  {
  }

  // ---- whole registry ----

  function PublicRecords(env: Env, records: seq<Dict>): seq<Raw> {
    if records == [] then [] else [Rec(SplitPublic(env, records[0]))] + PublicRecords(env, records[1..])
  }

  /** Sealed halves by path, filled in list order. */
  function SealedRecords(env: Env, records: seq<Dict>): map<string, Dict> {
    if records == [] then map[]
    else
      var last := records[|records| - 1];
      SealedRecords(env, records[..|records| - 1])[PathOf(env, last) := SplitSealed(env, last)]
  }

  function LoadRecords(env: Env, now: string, raw: seq<Raw>, sealed: map<string, Dict>): seq<Dict> {
    if raw == [] then []
    else [NormalizeRecord(env, now, Merged(env, raw[0], sealed))] + LoadRecords(env, now, raw[1..], sealed)
  }

  function Merged(env: Env, raw: Raw, sealed: map<string, Dict>): Raw {
    match raw
    case Path(_) => raw
    case Rec(d) => Rec(MergeRecord(env, d, if PathOf(env, d) in sealed then Some(sealed[PathOf(env, d)]) else None))
  }

  function NormalizeAll(env: Env, now: string, records: seq<Dict>): seq<Dict> {
    if records == [] then [] else [NormalizeObject(env, now, records[0])] + NormalizeAll(env, now, records[1..])
  }

  predicate DistinctPaths(env: Env, records: seq<Dict>) {
    forall i, j | 0 <= i < j < |records| :: PathOf(env, records[i]) != PathOf(env, records[j])
  }

  predicate Splittable(env: Env, records: seq<Dict>) {
    DistinctPaths(env, records) && forall r <- records :: DistinctIds(env, FacesOf(env, r))
  }

  lemma {:induction false} SealedRecordsFinds(env: Env, records: seq<Dict>, i: nat)
    requires DistinctPaths(env, records) && i < |records|
    ensures PathOf(env, records[i]) in SealedRecords(env, records)
    ensures SealedRecords(env, records)[PathOf(env, records[i])] == SplitSealed(env, records[i])
  {
    hide SplitSealed;
    var n := |records| - 1;
    if i < n {
      SealedRecordsFinds(env, records[..n], i);
    }
  }

  lemma PublicPath(env: Env, record: Dict)
    ensures PathOf(env, SplitPublic(env, record)) == PathOf(env, record)
  {
  }

  lemma {:induction false} LoadEach(env: Env, now: string, records: seq<Dict>, sealed: map<string, Dict>)
    requires forall r <- records ::
               && PathOf(env, r) in sealed && sealed[PathOf(env, r)] == SplitSealed(env, r)
               && DistinctIds(env, FacesOf(env, r))
    ensures LoadRecords(env, now, PublicRecords(env, records), sealed) == NormalizeAll(env, now, records)
  {
    hide PathOf, SplitSealed, SplitPublic, MergeRecord, NormalizeObject, FacesOf;
    if records != [] {
      var r := records[0];
      assert r in records;
      PublicPath(env, r);
      SplitMergeNormalizes(env, now, r);
      LoadEach(env, now, records[1..], sealed);
      assert PublicRecords(env, records)[1..] == PublicRecords(env, records[1..]);
    }
  }

  /**
   Saving any records with distinct paths and distinct face ids and loading them
   gives the same records, normalized; records already normalized come back equal.
   */
  lemma SaveLoadRoundTrip(env: Env, now: string, records: seq<Dict>)
    requires Splittable(env, records)
    ensures LoadRecords(env, now, PublicRecords(env, records), SealedRecords(env, records))
            == NormalizeAll(env, now, records)
    ensures (forall r <- records :: NormalizeObject(env, now, r) == r)
        ==> LoadRecords(env, now, PublicRecords(env, records), SealedRecords(env, records)) == records
  {
    hide PathOf, SplitSealed, NormalizeObject, FacesOf, LoadRecords, SealedRecords;
    forall r | r in records
      ensures PathOf(env, r) in SealedRecords(env, records)
              && SealedRecords(env, records)[PathOf(env, r)] == SplitSealed(env, r)
    {
      var i :| 0 <= i < |records| && records[i] == r;
      SealedRecordsFinds(env, records, i);
    }
    LoadEach(env, now, records, SealedRecords(env, records));
    NormalizedStays(env, now, records);
  }

  lemma {:induction false} NormalizedStays(env: Env, now: string, records: seq<Dict>)
    ensures (forall r <- records :: NormalizeObject(env, now, r) == r) ==> NormalizeAll(env, now, records) == records
  {
    hide NormalizeObject;
    if records != [] {
      NormalizedStays(env, now, records[1..]);
      assert records == [records[0]] + records[1..];
    }
  }

  function FaceIds(env: Env, faces: seq<Dict>): seq<string> {
    if faces == [] then [] else [FaceId(env, faces[0])] + FaceIds(env, faces[1..])
  }

  /** What a listing shows of a record without its detail. */
  function Listing(env: Env, record: Dict): (string, seq<string>) {
    (PathOf(env, record), FaceIds(env, FacesOf(env, record)))
  }

  lemma {:induction false} PublicFaceIds(env: Env, faces: seq<Dict>)
    requires forall f | f in faces :: FaceId(env, f) != ""
    ensures FaceIds(env, Faces(env, PublicFaces(faces))) == FaceIds(env, faces)
    ensures Faces(env, PublicFaces(faces)) == [] <==> faces == []
  {
    hide PublicFace, FaceId;
    if faces != [] {
      FaceHalves(env, faces[0]);
      PublicFaceIds(env, faces[1..]);
      var public := PublicFaces(faces);
      assert public[0] == D(PublicFace(faces[0])) && public[1..] == PublicFaces(faces[1..]);
      assert Faces(env, public) == [PublicFace(faces[0])] + Faces(env, public[1..]);
    }
  }

  /** The cleartext half alone lists the same path and the same faces. */
  lemma UnreadableSidecarStillLists(env: Env, record: Dict)
    ensures Merged(env, Rec(SplitPublic(env, record)), map[]) == Rec(SplitPublic(env, record))
    ensures Listing(env, SplitPublic(env, record)) == Listing(env, record)
  {
    PublicPath(env, record);
    var value := Get(record, "faces", L([]));
    if value.L? {
      FacesHaveIds(env, value.items);
    }
    PublicFaceIds(env, FacesOf(env, record));
  }

  // ---- field by field ----

  lemma NormalFields(env: Env, face: Dict)
    ensures NormalizeFace(env, face).Keys == NORMAL_FACE_FIELDS
  {
    hide GetStr, GetInt, GetBool, DefaultLabel, DefaultSelector, NormalizeDummyProfile, NormalizeBinding,
         NormalizeEmergencyAuth, GetDict, FaceId;
  }

  lemma NormalTexts(env: Env, face: Dict)
    ensures var f := NormalizeFace(env, face);
            && {"label", "last_accessed", "status", "selector"} <= f.Keys
            && f["label"] == GetStr(env, face, "label", DefaultLabel(FaceId(env, face)))
            && f["last_accessed"] == GetStr(env, face, "last_accessed", "")
            && f["status"] == GetStr(env, face, "status", "available")
            && f["selector"] == GetStr(env, face, "selector", DefaultSelector(FaceId(env, face)))
  {
    hide GetStr, GetInt, GetBool, DefaultLabel, DefaultSelector, NormalizeDummyProfile, NormalizeBinding,
         NormalizeEmergencyAuth, GetDict, FaceId;
  }

  lemma NormalNumbers(env: Env, face: Dict)
    ensures var f := NormalizeFace(env, face);
            && {"occupancy", "file_count", "credentials_initialized", "object_binding_initialized"} <= f.Keys
            && f["occupancy"] == GetInt(env, face, "occupancy") && f["file_count"] == GetInt(env, face, "file_count")
            && f["credentials_initialized"] == GetBool(face, "credentials_initialized")
            && f["object_binding_initialized"] == GetBool(face, "object_binding_initialized")
  {
    hide GetStr, GetInt, GetBool, DefaultLabel, DefaultSelector, NormalizeDummyProfile, NormalizeBinding,
         NormalizeEmergencyAuth, GetDict, FaceId;
  }

  lemma DefaultFields(id: string, now: string)
    ensures var f := DefaultFace(id, now);
            && f.Keys == NORMAL_FACE_FIELDS
            && f["face_id"] == S(id) && f["label"] == S(DefaultLabel(id)) && f["selector"] == S(DefaultSelector(id))
            && f["created_at"] == S(now) && f["last_accessed"] == S("") && f["status"] == S("available")
            && f["occupancy"] == I(0) && f["file_count"] == I(0)
            && f["credentials_initialized"] == B(false) && f["object_binding_initialized"] == B(false)
            && f["object_binding"] == D(map[]) && f["emergency_auth"] == D(map[])
  {
    hide DefaultLabel, DefaultSelector, DefaultProfile;
  }

  const NORMAL_FACE_FIELDS := {"face_id", "label", "created_at", "last_accessed", "occupancy", "file_count", "status",
                      "selector", "credentials_initialized", "object_binding_initialized", "dummy_profile",
                      "object_binding", "emergency_auth"}

  /** A face's texts, numbers and flags are kept when of the right type, and as registered when missing. */
  lemma FaceFields(env: Env, now: string, face: Dict, key: string)
    requires key in NORMAL_FACE_FIELDS - {"face_id", "created_at", "dummy_profile", "object_binding", "emergency_auth"}
    ensures var normal, default := NormalizeFace(env, face), DefaultFace(FaceId(env, face), now);
            && key in normal && key in default
            && (key !in face ==> normal[key] == default[key])
            && (key in face && (if default[key].S? then face[key].S? else if default[key].I? then face[key].I?
                                else face[key].B?)
                ==> normal[key] == face[key])
  {
    hide NormalizeFace, DefaultFace, DefaultLabel, DefaultSelector, FaceId;
    NormalTexts(env, face);
    NormalNumbers(env, face);
    DefaultFields(FaceId(env, face), now);
  }

  predicate StandardFace(face: Json, id: string, caption: string, selector: string, now: string) {
    && face.D? && NORMAL_FACE_FIELDS <= face.fields.Keys
    && var f := face.fields;
       && f["face_id"] == S(id) && f["label"] == S(caption) && f["selector"] == S(selector) && f["created_at"] == S(now)
       && f["last_accessed"] == S("") && f["status"] == S("available")
       && f["occupancy"] == I(0) && f["file_count"] == I(0)
       && f["credentials_initialized"] == B(false) && f["object_binding_initialized"] == B(false)
       && f["object_binding"] == D(map[]) && f["emergency_auth"] == D(map[])
  }

  lemma StandardFaces(now: string)
    ensures StandardFace(D(DefaultFace("face_a", now)), "face_a", "Disclosure Face 1", "a", now)
    ensures StandardFace(D(DefaultFace("face_b", now)), "face_b", "Disclosure Face 2", "b", now)
  {
    hide DefaultFace;
    DefaultFields("face_a", now);
    DefaultFields("face_b", now);
  }

  /** A new Vessel: closed, never opened, and its two standard Faces, empty and without credentials. */
  lemma RegisteredRecord(env: Env, now: string, path: string)
    ensures var record := NormalizeRecord(env, now, Path(path));
            && record.Keys == {"path", "label", "face_labels", "faces", "is_open", "open_count", "last_opened_at",
                               "last_closed_at", "active_face_id"}
            && record["path"] == S(path) && record["is_open"] == B(false) && record["open_count"] == I(0)
            && record["last_opened_at"] == S("") && record["last_closed_at"] == S("")
            && record["active_face_id"] == S("") && record["label"] == S("")
            && record["face_labels"] == L([S("Disclosure Face 1"), S("Disclosure Face 2")])
            && record["faces"].L? && |record["faces"].items| == 2
            && StandardFace(record["faces"].items[0], "face_a", "Disclosure Face 1", "a", now)
            && StandardFace(record["faces"].items[1], "face_b", "Disclosure Face 2", "b", now)
  {
    hide DefaultFace, StandardFace;
    StandardFaces(now);
  }

  lemma {:induction false} LabelsAt(env: Env, faces: seq<Dict>, i: nat)
    requires i < |faces|
    ensures |Labels(env, faces)| == |faces|
    ensures Labels(env, faces)[i]
         == if "label" in faces[i] then S(StrValue(env, faces[i]["label"])) else S("")
  {
    if |faces| > 1 {
      LabelsAt(env, faces[1..], if i > 0 then i - 1 else 0);
    }
  }

  lemma {:induction false} FacesWithin(env: Env, items: seq<Json>)
    requires forall j <- items :: j.D? ==> j.fields.Keys == NORMAL_FACE_FIELDS
    ensures forall f <- Faces(env, items) :: f.Keys == NORMAL_FACE_FIELDS
  {
    hide FaceId;
    if items != [] {
      FacesWithin(env, items[1..]);
      assert items == [items[0]] + items[1..];
    }
  }

  lemma {:induction false} PublicWithin(faces: seq<Dict>)
    requires forall f <- faces :: f.Keys == NORMAL_FACE_FIELDS
    ensures forall j <- PublicFaces(faces) :: j.D? && j.fields.Keys == {"face_id", "created_at", "selector"}
  {
    if faces != [] {
      PublicWithin(faces[1..]);
      assert faces == [faces[0]] + faces[1..];
      assert PublicFace(faces[0]).Keys == NORMAL_FACE_FIELDS - SEALED_FACE_FIELDS
          == {"face_id", "created_at", "selector"};
    }
  }

  lemma {:induction false} EachWithin(env: Env, faces: seq<Dict>)
    ensures forall f <- NormalizeEach(env, faces) :: f.Keys == NORMAL_FACE_FIELDS
  {
    hide NormalizeFace;
    if faces != [] {
      EachWithin(env, faces[1..]);
      NormalFields(env, faces[0]);
    }
  }

  lemma NormalizedWithin(env: Env, now: string, faces: seq<Dict>)
    ensures AsJson(NormalizeFaces(env, now, faces)).L?
    ensures forall j <- AsJson(NormalizeFaces(env, now, faces)).items :: j.D? && j.fields.Keys == NORMAL_FACE_FIELDS
  {
    hide NormalizeEach, DefaultFace, HasFace;
    EachWithin(env, faces);
    DefaultFields("face_a", now);
    DefaultFields("face_b", now);
    assert forall f <- NormalizeFaces(env, now, faces) :: f.Keys == NORMAL_FACE_FIELDS;
  }

  const OPEN_KEYS := {"path", "label", "faces", "is_open", "open_count", "last_opened_at", "last_closed_at"}
  const HIDDEN_KEYS := {"active_face_id", "face_labels", "dummy_profile"}

  lemma NormalKeys(env: Env, now: string, d: Dict)
    ensures var record := NormalizeObject(env, now, d);
            && record.Keys == OPEN_KEYS + HIDDEN_KEYS
            && record["faces"] == AsJson(NormalizeFaces(env, now, FacesOf(env, d)))
  {
    hide NormalizeFaces, Aggregate, Labels, AsJson, FacesOf;
  }

  lemma OpenNotHidden(k: string)
    requires k in HIDDEN_KEYS
    ensures k !in OPEN_KEYS
  {
    assert |k| == 14 || |k| == 11 || |k| == 13;
    assert forall o <- OPEN_KEYS :: o == "last_opened_at" || o == "last_closed_at" || |o| <= 10;
  }

  lemma KeysApart()
    ensures OPEN_KEYS !! HIDDEN_KEYS && "faces" in OPEN_KEYS
    ensures HIDDEN_KEYS == {SEALED_RECORD_FIELD} + DERIVED_RECORD_FIELDS
  {
    forall k | k in HIDDEN_KEYS ensures k !in OPEN_KEYS {
      OpenNotHidden(k);
    }
  }

  lemma SplitKeysOf(env: Env, record: Dict, kept: set<string>, dropped: set<string>)
    requires record.Keys == kept + dropped && "faces" in kept && kept !! dropped
    requires dropped == {SEALED_RECORD_FIELD} + DERIVED_RECORD_FIELDS
    ensures SplitPublic(env, record).Keys == kept
  {
    hide PublicFaces, FacesOf;
  }

  lemma SplitKeys(env: Env, now: string, d: Dict)
    ensures SplitPublic(env, NormalizeObject(env, now, d)).Keys == OPEN_KEYS
  {
    hide SplitPublic, NormalizeObject, OPEN_KEYS, HIDDEN_KEYS, SEALED_RECORD_FIELD, DERIVED_RECORD_FIELDS;
    NormalKeys(env, now, d);
    KeysApart();
    SplitKeysOf(env, NormalizeObject(env, now, d), OPEN_KEYS, HIDDEN_KEYS);
  }

  lemma SplitFacesAre(env: Env, record: Dict)
    ensures var public := SplitPublic(env, record);
            "faces" in public && public["faces"] == L(PublicFaces(FacesOf(env, record)))
  {
  }

  lemma ListedFacesWithin(env: Env, now: string, d: Dict)
    ensures forall f <- FacesOf(env, NormalizeObject(env, now, d)) :: f.Keys == NORMAL_FACE_FIELDS
  {
    hide NormalizeObject, NormalizeFaces, AsJson, Faces;
    NormalKeys(env, now, d);
    NormalizedWithin(env, now, FacesOf(env, d));
    FacesWithin(env, AsJson(NormalizeFaces(env, now, FacesOf(env, d))).items);
  }

  /** All that stays readable of a listed record: these keys, and of each face its id, its time and its selector. */
  lemma PublicKeysExactly(env: Env, now: string, d: Dict)
    ensures var public := SplitPublic(env, NormalizeObject(env, now, d));
            && public.Keys == {"path", "label", "faces", "is_open", "open_count", "last_opened_at", "last_closed_at"}
            && public["faces"].L?
            && forall j <- public["faces"].items :: j.D? && j.fields.Keys == {"face_id", "created_at", "selector"}
  {
    hide NormalizeObject, PublicFaces, SplitPublic, FacesOf;
    var record := NormalizeObject(env, now, d);
    SplitKeys(env, now, d);
    SplitFacesAre(env, record);
    ListedFacesWithin(env, now, d);
    PublicWithin(FacesOf(env, record));
  }

  /** A face's detail by its id, or nothing. */
  function DetailOf(env: Env, face: Dict, detail: Dict): Dict {
    var id := FaceId(env, face);
    if id in detail && detail[id].D? then detail[id].fields else map[]
  }

  lemma {:induction false} RebuildAround(env: Env, before: seq<Json>, item: Json, after: seq<Json>, detail: Dict)
    ensures Rebuild(env, before + [item] + after, detail)
         == Rebuild(env, before, detail) + RebuildOne(env, item, detail) + Rebuild(env, after, detail)
  {
    hide RebuildOne;
    var all := before + [item] + after;
    if before == [] {
      assert all[0] == item && all[1..] == after;
    } else {
      assert all[0] == before[0] && all[1..] == before[1..] + [item] + after;
      RebuildAround(env, before[1..], item, after, detail);
    }
  }

  /** Merging keeps each face in its place, takes its sealed fields over its public ones, and drops other items. */
  lemma MergedFaceExactly(env: Env, before: seq<Json>, item: Json, after: seq<Json>, detail: Dict)
    ensures Rebuild(env, [], detail) == []
    ensures var rebuilt := Rebuild(env, before + [item] + after, detail);
            var first, last := Rebuild(env, before, detail), Rebuild(env, after, detail);
            if !item.D? then rebuilt == first + last
            else
              && |rebuilt| == |first| + 1 + |last| && rebuilt[|first|].D?
              && rebuilt == first + [rebuilt[|first|]] + last
              && var held, face := DetailOf(env, item.fields, detail), rebuilt[|first|].fields;
                 && face.Keys == item.fields.Keys + held.Keys
                 && forall k <- face :: face[k] == if k in held then held[k] else item.fields[k]
  {
    hide Rebuild, FaceId;
    RebuildAround(env, before, item, after, detail);
    assert Rebuild(env, [], detail) == [] by { RebuiltNothing(env, detail); }
  }

  lemma RebuiltNothing(env: Env, detail: Dict)
    ensures Rebuild(env, [], detail) == []
  {
  }

  /** Besides the faces, merging sets the active id from the sealed half and nothing else. */
  lemma MergedFields(env: Env, public: Dict, sealed: Option<Dict>, key: string)
    requires key != "faces"
    ensures var merged := MergeRecord(env, public, sealed);
            if key == "active_face_id" && sealed.Some? && key in sealed.value
            then key in merged && merged[key] == sealed.value[key]
            else Get(merged, key, Null) == Get(public, key, Null) && (key in merged <==> key in public)
  {
    hide Rebuild;
  }
}
