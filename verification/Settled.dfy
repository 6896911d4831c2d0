/** When a loaded registry record is a fixed point of saving and loading. */
module Settled {
  import opened Wrappers
  import opened Text
  import opened Registry

  /** Upper-casing twice is upper-casing once. */
  ghost predicate UpperSettles(env: Env) {
    forall s :: env.upper(env.upper(s)) == env.upper(s)
  }

  lemma ProfileSettles(env: Env, d: Dict)
    requires UpperSettles(env)
    ensures NormalizeDummyProfile(env, NormalizeDummyProfile(env, d)) == NormalizeDummyProfile(env, d)
  {
    var p := NormalizeDummyProfile(env, d);
    CountsSettle(env, IntDict(env, Get(d, "file_type_distribution", D(map[]))));
    assert Get(p, "file_type_distribution", D(map[]))
        == IntsAsJson(IntDict(env, Get(d, "file_type_distribution", D(map[]))));
  }

  lemma CountsSettle(env: Env, m: map<string, int>)
    ensures IntDict(env, IntsAsJson(m)) == m
  {
  }

  lemma FloatsSettle(env: Env, j: Json)
    ensures FloatList(env, FloatList(env, j)) == FloatList(env, j)
  {
    var l := FloatList(env, j);
    assert FloatList(env, l).items == l.items;
  }

  lemma BindingSettles(env: Env, j: Json)
    requires j.D?
    ensures NormalizeBinding(env, D(NormalizeBinding(env, j))) == NormalizeBinding(env, j)
    ensures NormalizeBinding(env, j) != map[]
  {
    var d, b := j.fields, NormalizeBinding(env, j);
    FloatsSettle(env, Get(d, "brightness_histogram", L([])));
    FloatsSettle(env, Get(d, "color_histogram", L([])));
    assert "source_type" in b;
    assert Get(b, "brightness_histogram", L([])) == FloatList(env, Get(d, "brightness_histogram", L([])));
    assert Get(b, "color_histogram", L([])) == FloatList(env, Get(d, "color_histogram", L([])));
  }

  lemma AuthSettles(env: Env, d: Dict)
    ensures NormalizeEmergencyAuth(env, NormalizeEmergencyAuth(env, d)) == NormalizeEmergencyAuth(env, d)
    ensures NormalizeEmergencyAuth(env, d) != map[]
  {
    assert "salt_b64" in NormalizeEmergencyAuth(env, d);
  }

  /** The binding and the destroy verifier of a face are spelled out in full. */
  predicate Filled(face: Dict) {
    Get(face, "object_binding", D(map[])) != D(map[]) && Get(face, "emergency_auth", D(map[])) != D(map[])
  }

  /** The values of a face as the normalizer or the defaults leave it. */
  datatype FaceView = FaceView(id: string, caption: string, created: string, accessed: string, occupancy: int,
                               count: int, status: string, selector: string, credentials: bool, bound: bool,
                               profile: Dict, binding: Dict, auth: Dict)

  function FaceDict(v: FaceView): Dict {
    map["face_id" := S(v.id), "label" := S(v.caption), "created_at" := S(v.created), "last_accessed" := S(v.accessed),
        "occupancy" := I(v.occupancy), "file_count" := I(v.count), "status" := S(v.status), "selector" := S(v.selector),
        "credentials_initialized" := B(v.credentials), "object_binding_initialized" := B(v.bound),
        "dummy_profile" := D(v.profile), "object_binding" := D(v.binding), "emergency_auth" := D(v.auth)]
  }

  ghost predicate Shapes(env: Env, face: Dict, v: FaceView) {
    && face == FaceDict(v) && v.id != ""
    && NormalizeDummyProfile(env, v.profile) == v.profile
    && (v.binding != map[] ==> NormalizeBinding(env, D(v.binding)) == v.binding)
    && (v.auth != map[] ==> NormalizeEmergencyAuth(env, v.auth) == v.auth)
  }

  ghost predicate Shaped(env: Env, face: Dict) {
    exists v :: Shapes(env, face, v)
  }

  lemma FaceDictTexts(v: FaceView, default: Json)
    ensures var f := FaceDict(v);
            && Get(f, "face_id", default) == S(v.id) && Get(f, "label", default) == S(v.caption)
            && Get(f, "created_at", default) == S(v.created) && Get(f, "last_accessed", default) == S(v.accessed)
            && Get(f, "status", default) == S(v.status) && Get(f, "selector", default) == S(v.selector)
  {
  }

  lemma FaceDictNumbers(v: FaceView, default: Json)
    ensures var f := FaceDict(v);
            && Get(f, "occupancy", default) == I(v.occupancy) && Get(f, "file_count", default) == I(v.count)
            && Get(f, "credentials_initialized", default) == B(v.credentials)
            && Get(f, "object_binding_initialized", default) == B(v.bound)
  {
  }

  lemma FaceDictObjects(v: FaceView, default: Json)
    ensures var f := FaceDict(v);
            && Get(f, "dummy_profile", default) == D(v.profile) && Get(f, "object_binding", default) == D(v.binding)
            && Get(f, "emergency_auth", default) == D(v.auth)
  {
  }

  /** Normalizing a shaped face keeps everything and fills an empty binding or verifier. */
  lemma ShapedNormalizes(env: Env, v: FaceView)
    ensures NormalizeFace(env, FaceDict(v))
         == FaceDict(v.(profile := NormalizeDummyProfile(env, v.profile),
                        binding := NormalizeBinding(env, D(v.binding)),
                        auth := NormalizeEmergencyAuth(env, v.auth)))
    ensures FaceId(env, FaceDict(v)) == v.id
  {
    hide NormalizeDummyProfile, NormalizeBinding, NormalizeEmergencyAuth, Get;
    FaceDictTexts(v, S(""));
    FaceDictTexts(v, S(DefaultLabel(v.id)));
    FaceDictTexts(v, S(DefaultSelector(v.id)));
    FaceDictTexts(v, S("available"));
    FaceDictNumbers(v, I(0));
    FaceDictNumbers(v, B(false));
    FaceDictObjects(v, D(map[]));
    ViewOf(env, FaceDict(v));
  }

  /** The values the normalizer puts in a face. */
  function NormalView(env: Env, face: Dict): FaceView {
    var id := FaceId(env, face);
    FaceView(id, GetStr(env, face, "label", DefaultLabel(id)).s, GetStr(env, face, "created_at", "").s,
             GetStr(env, face, "last_accessed", "").s, GetInt(env, face, "occupancy").n,
             GetInt(env, face, "file_count").n,
             GetStr(env, face, "status", "available").s, GetStr(env, face, "selector", DefaultSelector(id)).s,
             GetBool(face, "credentials_initialized").b, GetBool(face, "object_binding_initialized").b,
             NormalizeDummyProfile(env, GetDict(face, "dummy_profile")),
             NormalizeBinding(env, Get(face, "object_binding", D(map[]))),
             NormalizeEmergencyAuth(env, GetDict(face, "emergency_auth")))
  }

  lemma ViewOf(env: Env, face: Dict)
    ensures NormalizeFace(env, face) == FaceDict(NormalView(env, face))
  {
    hide NormalizeDummyProfile, NormalizeBinding, NormalizeEmergencyAuth, Get, FaceId;
  }

  /** A shaped face is unchanged by normalizing exactly when it is filled. */
  lemma FaceSettlesExactly(env: Env, face: Dict)
    requires Shaped(env, face)
    ensures NormalizeFace(env, face) == face <==> Filled(face)
    ensures FaceId(env, face) != ""
  {
    hide NormalizeDummyProfile, NormalizeBinding, NormalizeEmergencyAuth, NormalizeFace, FaceDict, FaceId, Get;
    var v :| Shapes(env, face, v);
    ShapedNormalizes(env, v);
    FaceDictObjects(v, D(map[]));
    FaceDictObjects(v.(profile := NormalizeDummyProfile(env, v.profile), binding := NormalizeBinding(env, D(v.binding)),
                      auth := NormalizeEmergencyAuth(env, v.auth)), D(map[]));
    BindingSettles(env, D(v.binding));
    AuthSettles(env, v.auth);
  }

  lemma NormalizedFaceIsShaped(env: Env, face: Dict)
    requires UpperSettles(env) && FaceId(env, face) != ""
    ensures Shaped(env, NormalizeFace(env, face)) && FaceId(env, NormalizeFace(env, face)) == FaceId(env, face)
  {
    hide NormalizeDummyProfile, NormalizeBinding, NormalizeEmergencyAuth, Get, NormalizeFace, FaceDict;
    var binding := Get(face, "object_binding", D(map[]));
    var v := NormalView(env, face);
    ViewOf(env, face);
    ProfileSettles(env, GetDict(face, "dummy_profile"));
    AuthSettles(env, GetDict(face, "emergency_auth"));
    if binding.D? {
      BindingSettles(env, binding);
    } else {
      NoBinding(env, binding);
    }
    assert Shapes(env, NormalizeFace(env, face), v);
    ShapedNormalizes(env, v);
  }

  lemma NoBinding(env: Env, j: Json)
    requires !j.D?
    ensures NormalizeBinding(env, j) == map[]
  {
  }

  lemma DefaultProfileSettles(env: Env)
    requires env.upper("LOW") == "LOW"
    ensures NormalizeDummyProfile(env, DefaultProfile()) == DefaultProfile()
  {
    CountsSettle(env, map[]);
    assert Get(DefaultProfile(), "file_type_distribution", D(map[])) == D(map[]);
  }

  lemma DefaultFaceIsShaped(env: Env, id: string, now: string)
    requires env.upper("LOW") == "LOW" && id != ""
    ensures Shaped(env, DefaultFace(id, now)) && FaceId(env, DefaultFace(id, now)) == id
            && !Filled(DefaultFace(id, now))
  {
    hide NormalizeDummyProfile, Get;
    var v := FaceView(id, DefaultLabel(id), now, "", 0, 0, "available", DefaultSelector(id), false, false,
                      DefaultProfile(), map[], map[]);
    DefaultProfileSettles(env);
    assert DefaultFace(id, now) == FaceDict(v);
    FaceDictTexts(v, S(""));
    FaceDictObjects(v, D(map[]));
    assert Shapes(env, DefaultFace(id, now), v);
  }

  lemma {:induction false} NormalizedEachIsShaped(env: Env, faces: seq<Dict>)
    requires UpperSettles(env) && forall f | f in faces :: FaceId(env, f) != ""
    ensures |NormalizeEach(env, faces)| == |faces|
    ensures forall i | 0 <= i < |faces| :: Shaped(env, NormalizeEach(env, faces)[i])
                                           && FaceId(env, NormalizeEach(env, faces)[i]) == FaceId(env, faces[i])
  {
    hide NormalizeFace, Shaped, FaceId;
    if faces != [] {
      NormalizedFaceIsShaped(env, faces[0]);
      NormalizedEachIsShaped(env, faces[1..]);
    }
  }

  /** What the normalizer makes of a face list: shaped faces, both standard ones among them. */
  lemma NormalizedFacesShaped(env: Env, now: string, faces: seq<Dict>)
    requires UpperSettles(env) && env.upper("LOW") == "LOW" && forall f | f in faces :: FaceId(env, f) != ""
    ensures var n := NormalizeFaces(env, now, faces);
            (forall f | f in n :: Shaped(env, f)) && HasFace(env, n, "face_a") && HasFace(env, n, "face_b")
  {
    hide NormalizeFace, Shaped, FaceId, DefaultFace;
    NormalizedEachIsShaped(env, faces);
    DefaultFaceIsShaped(env, "face_a", now);
    DefaultFaceIsShaped(env, "face_b", now);
    var each, n := NormalizeEach(env, faces), NormalizeFaces(env, now, faces);
    forall id | id == "face_a" || id == "face_b" ensures HasFace(env, n, id) {
      if HasFace(env, faces, id) {
        var i :| 0 <= i < |faces| && FaceId(env, faces[i]) == id;
        assert n[i] == each[i];
      } else {
        assert DefaultFace(id, now) in n;
      }
    }
  }

  lemma {:induction false} EachSettlesExactly(env: Env, faces: seq<Dict>)
    requires forall f | f in faces :: Shaped(env, f)
    ensures NormalizeEach(env, faces) == faces <==> forall f | f in faces :: Filled(f)
  {
    hide NormalizeFace, Shaped, Filled;
    if faces != [] {
      assert faces == [faces[0]] + faces[1..];
      FaceSettlesExactly(env, faces[0]);
      EachSettlesExactly(env, faces[1..]);
    }
  }

  lemma {:induction false} FacesOfJson(env: Env, faces: seq<Dict>)
    requires forall f | f in faces :: FaceId(env, f) != ""
    ensures Faces(env, AsJson(faces).items) == faces
  {
    hide FaceId;
    if faces != [] {
      FacesOfJson(env, faces[1..]);
      assert AsJson(faces).items[1..] == AsJson(faces[1..]).items;
      assert faces == [faces[0]] + faces[1..];
    }
  }

  lemma ListedFaces(env: Env, record: Dict, faces: seq<Dict>)
    requires Get(record, "faces", L([])) == AsJson(faces) && forall f | f in faces :: FaceId(env, f) != ""
    ensures FacesOf(env, record) == faces
  {
    hide FaceId;
    FacesOfJson(env, faces);
  }

  lemma NormalizedId(env: Env, face: Dict)
    ensures FaceId(env, NormalizeFace(env, face)) == FaceId(env, face)
  {
    hide NormalizeDummyProfile, NormalizeBinding, NormalizeEmergencyAuth, GetStr, GetInt, GetBool;
  }

  lemma {:induction false} NormalizedEach(env: Env, faces: seq<Dict>, i: nat)
    requires i < |faces|
    ensures |NormalizeEach(env, faces)| == |faces| && NormalizeEach(env, faces)[i] == NormalizeFace(env, faces[i])
  {
    hide NormalizeFace;
    if i > 0 {
      NormalizedEach(env, faces[1..], i - 1);
    } else if |faces| > 1 {
      NormalizedEach(env, faces[1..], 0);
    }
  }

  /** The faces of a loaded record: the listed ones normalized, in order, then missing standard ones. */
  lemma LoadedFaces(env: Env, now: string, d: Dict)
    ensures var faces, loaded := FacesOf(env, d), FacesOf(env, NormalizeObject(env, now, d));
            && loaded == NormalizeFaces(env, now, faces)
            && |loaded| >= |faces|
            && forall i | 0 <= i < |faces| :: loaded[i] == NormalizeFace(env, faces[i])
                                              && FaceId(env, loaded[i]) == FaceId(env, faces[i]) != ""
    ensures DistinctIds(env, FacesOf(env, d)) ==> DistinctIds(env, FacesOf(env, NormalizeObject(env, now, d)))
  {
    hide NormalizeFace, NormalizeObject, DefaultFace, FaceId, Faces, AsJson;
    var faces, loaded := FacesOf(env, d), NormalizeFaces(env, now, FacesOf(env, d));
    var value := Get(d, "faces", L([]));
    if value.L? {
      FacesHaveIds(env, value.items);
    }
    forall i | 0 <= i < |faces|
      ensures |NormalizeEach(env, faces)| == |faces| && loaded[i] == NormalizeFace(env, faces[i])
              && FaceId(env, loaded[i]) == FaceId(env, faces[i]) != ""
    {
      NormalizedEach(env, faces, i);
      NormalizedId(env, faces[i]);
      assert faces[i] in faces;
    }
    DefaultId(env, "face_a", now);
    DefaultId(env, "face_b", now);
    assert faces == [] ==> NormalizeEach(env, faces) == [];
    LoadedOthers(env, now, d, L([]));
    ListedFaces(env, NormalizeObject(env, now, d), loaded);
  }

  lemma DefaultId(env: Env, id: string, now: string)
    ensures FaceId(env, DefaultFace(id, now)) == id
  {
  }

  /**
   A record as the registry loads it comes back equal from another save and load
   exactly when every face has its binding and destroy verifier spelled out, which a
   face added by default does not.
   */
  lemma LoadedRecordSettlesExactly(env: Env, now: string, later: string, d: Dict)
    requires UpperSettles(env) && env.upper("LOW") == "LOW"
    ensures var loaded := NormalizeObject(env, now, d);
            NormalizeObject(env, later, loaded) == loaded <==> forall f | f in FacesOf(env, loaded) :: Filled(f)
  {
    hide NormalizeFace, Shaped, FaceId, Filled, Aggregate, Labels, NormalizeFaces, Faces, NormalizeObject;
    var faces := FacesOf(env, d);
    var value := Get(d, "faces", L([]));
    if value.L? {
      FacesHaveIds(env, value.items);
    }
    NormalizedFacesShaped(env, now, faces);
    var n := NormalizeFaces(env, now, faces);
    forall f | f in n ensures FaceId(env, f) != "" {
      FaceSettlesExactly(env, f);
    }
    FacesOfJson(env, n);
    var loaded := NormalizeObject(env, now, d);
    LoadedOthers(env, now, d, L([]));
    assert FacesOf(env, loaded) == n;
    BothListed(env, later, n);
    EachSettlesExactly(env, n);
    ObjectSettles(env, now, later, d);
    if AsJson(NormalizeEach(env, n)) == AsJson(n) {
      SameJsonSameFaces(NormalizeEach(env, n), n);
    }
  }

  lemma BothListed(env: Env, now: string, faces: seq<Dict>)
    requires HasFace(env, faces, "face_a") && HasFace(env, faces, "face_b")
    ensures NormalizeFaces(env, now, faces) == NormalizeEach(env, faces)
  {
    assert NormalizeEach(env, faces) + [] + [] == NormalizeEach(env, faces);
  }

  lemma SameJsonSameFaces(a: seq<Dict>, b: seq<Dict>)
    requires AsJson(a) == AsJson(b)
    ensures a == b
  {
    var x, y := AsJson(a).items, AsJson(b).items;
    assert |a| == |b|;
    forall i | 0 <= i < |a| ensures a[i] == b[i] {
      assert x[i] == D(a[i]) && y[i] == D(b[i]);
    }
  }

  lemma LoadedTexts(env: Env, now: string, d: Dict, default: Json)
    ensures var loaded := NormalizeObject(env, now, d);
            && Get(loaded, "path", default) == GetStr(env, d, "path", "")
               && Get(loaded, "label", default) == GetStr(env, d, "label", "")
            && Get(loaded, "last_opened_at", default) == GetStr(env, d, "last_opened_at", "")
            && Get(loaded, "last_closed_at", default) == GetStr(env, d, "last_closed_at", "")
            && Get(loaded, "active_face_id", default) == GetStr(env, d, "active_face_id", "")
  {
    hide GetStr, GetInt, GetBool, NormalizeFaces, Aggregate, Labels, FacesOf;
  }

  lemma LoadedOthers(env: Env, now: string, d: Dict, default: Json)
    ensures var loaded := NormalizeObject(env, now, d);
            && Get(loaded, "is_open", default) == GetBool(d, "is_open")
               && Get(loaded, "open_count", default) == GetInt(env, d, "open_count")
            && Get(loaded, "faces", default) == AsJson(NormalizeFaces(env, now, FacesOf(env, d)))
  {
    hide GetStr, GetInt, GetBool, NormalizeFaces, Aggregate, Labels, FacesOf;
  }

  /** Only the faces decide: every other field of a loaded record is already normal. */
  lemma ObjectSettles(env: Env, now: string, later: string, d: Dict)
    ensures var loaded := NormalizeObject(env, now, d);
            var n, again := NormalizeFaces(env, now, FacesOf(env, d)), NormalizeFaces(env, later, FacesOf(env, loaded));
            && (again == n ==> NormalizeObject(env, later, loaded) == loaded)
            && (NormalizeObject(env, later, loaded) == loaded ==> AsJson(again) == AsJson(n))
  {
    hide NormalizeFaces, Aggregate, Labels, FacesOf, Get;
    var loaded := NormalizeObject(env, now, d);
    LoadedTexts(env, now, d, S(""));
    LoadedOthers(env, now, d, B(false));
    LoadedOthers(env, now, d, I(0));
    LoadedOthers(env, now, d, L([]));
    LoadedOthers(env, later, loaded, L([]));
  }

  // ---- a new registration ----

  /** A default face once its empty binding and destroy verifier have been spelled out. */
  function FilledDefault(env: Env, id: string, now: string): Dict {
    DefaultFace(id, now)["object_binding" := D(NormalizeBinding(env, D(map[])))]
                        ["emergency_auth" := D(NormalizeEmergencyAuth(env, map[]))]
  }

  lemma DefaultFills(env: Env, id: string, now: string)
    requires env.upper("LOW") == "LOW" && id != ""
    ensures NormalizeFace(env, DefaultFace(id, now)) == FilledDefault(env, id, now)
    ensures Filled(FilledDefault(env, id, now))
            && FaceId(env, DefaultFace(id, now)) == id == FaceId(env, FilledDefault(env, id, now))
    ensures FilledDefault(env, id, now) != DefaultFace(id, now)
  {
    hide NormalizeDummyProfile, NormalizeBinding, NormalizeEmergencyAuth, NormalizeFace;
    var v := FaceView(id, DefaultLabel(id), now, "", 0, 0, "available", DefaultSelector(id), false, false,
                      DefaultProfile(), map[], map[]);
    assert DefaultFace(id, now) == FaceDict(v);
    DefaultProfileSettles(env);
    ShapedNormalizes(env, v);
    BindingSettles(env, D(map[]));
    AuthSettles(env, map[]);
  }

  lemma DefaultAddsNothing(env: Env, face: Dict)
    requires env.upper("LOW") == "LOW" && GetDict(face, "dummy_profile") == DefaultProfile()
    ensures AddFace(env, NO_TOTALS, face) == NO_TOTALS
  {
    DefaultProfileSettles(env);
    assert IntDict(env, DefaultProfile()["file_type_distribution"]) == map[];
    assert AddCounts(map[], map[]) == map[];
  }

  lemma RegisteredFaces(env: Env, now: string, path: string)
    ensures var registered := NormalizeRecord(env, now, Path(path));
            && FacesOf(env, registered) == [DefaultFace("face_a", now), DefaultFace("face_b", now)]
            && DistinctIds(env, FacesOf(env, registered)) && "dummy_profile" !in registered
  {
    hide DefaultProfile, DefaultLabel, DefaultSelector;
    FacesOfJson(env, [DefaultFace("face_a", now), DefaultFace("face_b", now)]);
  }

  lemma FilledPair(env: Env, now: string, later: string)
    requires env.upper("LOW") == "LOW"
    ensures NormalizeFaces(env, later, [DefaultFace("face_a", now), DefaultFace("face_b", now)])
         == [FilledDefault(env, "face_a", now), FilledDefault(env, "face_b", now)]
  {
    hide NormalizeFace, FilledDefault, DefaultFace, FaceId;
    var a, b := DefaultFace("face_a", now), DefaultFace("face_b", now);
    DefaultFills(env, "face_a", now);
    DefaultFills(env, "face_b", now);
    assert [a, b][0] == a && [a, b][1] == b && [a, b][1..] == [b] && [b][1..] == [];
    assert NormalizeEach(env, [b]) == [FilledDefault(env, "face_b", now)];
    BothListed(env, later, [a, b]);
  }

  lemma PairOfDefaults(env: Env, x: Dict, y: Dict)
    requires env.upper("LOW") == "LOW" && GetDict(x, "dummy_profile") == GetDict(y, "dummy_profile") == DefaultProfile()
    ensures Aggregate(env, [x, y]) == DefaultProfile()
    ensures Labels(env, [x, y]) == [GetStr(env, x, "label", ""), GetStr(env, y, "label", "")]
  {
    hide AddFace, GetStr;
    assert [x, y][1..] == [y] && [y][1..] == [];
    DefaultAddsNothing(env, x);
    DefaultAddsNothing(env, y);
    assert AddFaces(env, NO_TOTALS, [y]) == NO_TOTALS;
    assert Labels(env, [y][1..]) == [] && Labels(env, [y]) == [GetStr(env, y, "label", "")];
    assert IntsAsJson(map[]) == D(map[]);
  }

  lemma FilledDefaultFields(env: Env, id: string, now: string)
    ensures var f := FilledDefault(env, id, now);
            GetDict(f, "dummy_profile") == DefaultProfile() && GetStr(env, f, "label", "") == S(DefaultLabel(id))
  {
  }

  /** What loading makes of a registered Vessel: the aggregate is added and both Faces are filled. */
  lemma RegisteredLoads(env: Env, now: string, later: string, path: string)
    requires env.upper("LOW") == "LOW"
    ensures var registered := NormalizeRecord(env, now, Path(path));
            && NormalizeObject(env, later, registered)
               == registered["dummy_profile" := D(DefaultProfile())]
                            ["faces" := AsJson([FilledDefault(env, "face_a", now), FilledDefault(env, "face_b", now)])]
  {
    hide NormalizeFaces, FilledDefault, DefaultFace, FacesOf, Aggregate, Labels, FaceId, DefaultProfile, AsJson;
    RegisteredFaces(env, now, path);
    FilledPair(env, now, later);
    FilledDefaultFields(env, "face_a", now);
    FilledDefaultFields(env, "face_b", now);
    PairOfDefaults(env, FilledDefault(env, "face_a", now), FilledDefault(env, "face_b", now));
  }

  /**
   Saving a freshly registered Vessel and loading it changes exactly two things: the
   aggregate profile, which registration leaves out, is there, and both Faces have
   their empty binding and destroy verifier spelled out. After that it is settled.
   */
  lemma FreshRegistrationChangesOnce(env: Env, now: string, later: string, last: string, path: string)
    requires UpperSettles(env) && env.upper("LOW") == "LOW"
    ensures var registered := NormalizeRecord(env, now, Path(path));
            var loaded := registered["dummy_profile" := D(DefaultProfile())]
                                    ["faces" := AsJson([FilledDefault(env, "face_a", now),
                                                        FilledDefault(env, "face_b", now)])];
            && LoadRecords(env, later, PublicRecords(env, [registered]), SealedRecords(env, [registered])) == [loaded]
            && loaded != registered
            && NormalizeObject(env, last, loaded) == loaded
  {
    hide NormalizeObject, NormalizeRecord, LoadRecords, PublicRecords, SealedRecords, FilledDefault, AsJson,
         DefaultProfile;
    var registered := NormalizeRecord(env, now, Path(path));
    RegisteredLoads(env, now, later, path);
    RegisteredRoundTrip(env, now, later, path);
    RegisteredFaces(env, now, path);
    RegisteredSettles(env, now, later, last, registered);
  }

  lemma RegisteredRoundTrip(env: Env, now: string, later: string, path: string)
    requires env.upper("LOW") == "LOW"
    ensures var registered := NormalizeRecord(env, now, Path(path));
            && LoadRecords(env, later, PublicRecords(env, [registered]), SealedRecords(env, [registered]))
               == [NormalizeObject(env, later, registered)]
  {
    hide FacesOf, LoadRecords, PublicRecords, SealedRecords, FaceId, NormalizeObject, NormalizeRecord;
    var registered := NormalizeRecord(env, now, Path(path));
    RegisteredFaces(env, now, path);
    SaveLoadRoundTrip(env, later, [registered]);
    assert [registered][1..] == [];
  }

  lemma RegisteredSettles(env: Env, now: string, later: string, last: string, registered: Dict)
    requires UpperSettles(env) && env.upper("LOW") == "LOW"
    requires var loaded := NormalizeObject(env, later, registered);
             Get(loaded, "faces", L([]))
                 == AsJson([FilledDefault(env, "face_a", now), FilledDefault(env, "face_b", now)])
    ensures NormalizeObject(env, last, NormalizeObject(env, later, registered))
            == NormalizeObject(env, later, registered)
  {
    hide *;
    var a, b := FilledDefault(env, "face_a", now), FilledDefault(env, "face_b", now);
    DefaultFills(env, "face_a", now);
    DefaultFills(env, "face_b", now);
    ListedFaces(env, NormalizeObject(env, later, registered), [a, b]);
    LoadedRecordSettlesExactly(env, later, last, registered);
  }
}
