/**
 The aggregate filler profile of a Vessel (vessel_service.py): what the accumulator
 loop over its Faces adds up to.
 */
module AggregateProfile {
  import opened Text
  import opened Registry

  function Profile(env: Env, face: Dict): Dict {
    NormalizeDummyProfile(env, GetDict(face, "dummy_profile"))
  }

  function Types(env: Env, face: Dict): map<string, int> {
    IntDict(env, Profile(env, face)["file_type_distribution"])
  }

  function RatioOf(env: Env, face: Dict): real {
    Profile(env, face)["occupancy_ratio"].r
  }

  function Score(env: Env, face: Dict): int {
    Profile(env, face)["plausibility_score"].n
  }

  function Level(env: Env, face: Dict): string {
    Profile(env, face)["plausibility_level"].s
  }

  function Stamp(env: Env, face: Dict): string {
    Profile(env, face)["last_updated_at"].s
  }

  /** A number the faces' profiles are added up by. */
  datatype Count = FileCount | TotalSize | OfType(key: string)

  function Counted(env: Env, face: Dict, c: Count): int {
    match c
    case FileCount => Profile(env, face)["dummy_file_count"].n
    case TotalSize => Profile(env, face)["dummy_total_size"].n
    case OfType(key) => if key in Types(env, face) then Types(env, face)[key] else 0
  }

  function Sum(env: Env, faces: seq<Dict>, c: Count): int {
    if faces == [] then 0 else Sum(env, faces[..|faces| - 1], c) + Counted(env, faces[|faces| - 1], c)
  }

  function RatioSum(env: Env, faces: seq<Dict>): real {
    if faces == [] then 0.0 else RatioSum(env, faces[..|faces| - 1]) + RatioOf(env, faces[|faces| - 1])
  }

  predicate Sums(env: Env, faces: seq<Dict>, t: Totals) {
    && t.files == Sum(env, faces, FileCount) && t.size == Sum(env, faces, TotalSize) && t.ratio == RatioSum(env, faces)
    && (forall key | key in t.distribution :: t.distribution[key] == Sum(env, faces, OfType(key)))
  }

  ghost predicate Keys(env: Env, faces: seq<Dict>, t: Totals) {
    forall key :: key in t.distribution <==> exists f :: f in faces && key in Types(env, f)
  }

  predicate Maxima(env: Env, faces: seq<Dict>, t: Totals) {
    && 0 <= t.score && (forall f | f in faces :: Score(env, f) <= t.score)
    && (t.score == 0 || exists f :: f in faces && Score(env, f) == t.score)
    && (forall f | f in faces :: Rank(Level(env, f)) <= Rank(t.level))
    && (t.level == "LOW" || (Rank(t.level) > 0 && exists f :: f in faces && Level(env, f) == t.level))
    && (forall f | f in faces :: TextLeq(Stamp(env, f), t.updated))
    && (t.updated == "" || exists f :: f in faces && Stamp(env, f) == t.updated)
  }

  lemma {:induction false} AddFacesLast(env: Env, t: Totals, faces: seq<Dict>)
    requires faces != []
    ensures AddFaces(env, t, faces) == AddFace(env, AddFaces(env, t, faces[..|faces| - 1]), faces[|faces| - 1])
    decreases |faces|
  {
    hide AddFace;
    if |faces| > 1 {
      AddFacesLast(env, AddFace(env, t, faces[0]), faces[1..]);
      assert faces[1..][..|faces| - 2] == faces[..|faces| - 1][1..];
    }
  }

  lemma {:induction false} NoSuchType(env: Env, faces: seq<Dict>, key: string)
    requires forall f | f in faces :: key !in Types(env, f)
    ensures Sum(env, faces, OfType(key)) == 0
  {
    hide Types;
    if faces != [] {
      NoSuchType(env, faces[..|faces| - 1], key);
    }
  }

  /** One face's step, field by field. */
  lemma AddFaceParts(env: Env, t: Totals, f: Dict)
    ensures var next := AddFace(env, t, f);
            && next.files == t.files + Counted(env, f, FileCount) && next.size == t.size + Counted(env, f, TotalSize)
            && next.ratio == t.ratio + RatioOf(env, f) && next.distribution == AddCounts(t.distribution, Types(env, f))
            && next.score == (if Score(env, f) > t.score then Score(env, f) else t.score)
            && next.level == (if Rank(Level(env, f)) > Rank(t.level) then Level(env, f) else t.level)
            && next.updated == if TextLeq(Stamp(env, f), t.updated) then t.updated else Stamp(env, f)
  {
    hide NormalizeDummyProfile, TextLeq, AddCounts, IntDict;
  }

  lemma CountsAdd(env: Env, t: Totals, f: Dict, key: string)
    ensures var both := AddCounts(t.distribution, Types(env, f));
            && (key in both <==> key in t.distribution || key in Types(env, f))
            && (key in both ==>
                  var before := if key in t.distribution then t.distribution[key] else 0;
                  both[key] == before + Counted(env, f, OfType(key)))
  {
    hide Types;
  }

  lemma SumsAdd(env: Env, part: seq<Dict>, f: Dict, t: Totals)
    requires Sums(env, part, t) && Keys(env, part, t)
    ensures Sums(env, part + [f], AddFace(env, t, f)) && Keys(env, part + [f], AddFace(env, t, f))
  {
    hide AddFace, Types, Counted, AddCounts, RatioOf;
    var faces, next := part + [f], AddFace(env, t, f);
    assert faces[..|faces| - 1] == part;
    AddFaceParts(env, t, f);
    forall key
      ensures key in next.distribution <==> exists g :: g in faces && key in Types(env, g)
      ensures key in next.distribution ==> next.distribution[key] == Sum(env, faces, OfType(key))
    {
      CountsAdd(env, t, f, key);
      assert forall g :: g in faces <==> g in part || g == f;
      if key !in t.distribution {
        NoSuchType(env, part, key);
      }
    }
  }

  lemma MaximaAdd(env: Env, part: seq<Dict>, f: Dict, t: Totals)
    requires Maxima(env, part, t)
    ensures Maxima(env, part + [f], AddFace(env, t, f))
  {
    hide AddFace, TextLeq, AddCounts, Score, Level, Stamp, Counted, RatioOf, Types;
    AddFaceParts(env, t, f);
    var faces, next := part + [f], AddFace(env, t, f);
    assert forall g :: g in faces <==> g in part || g == f;
    TextOrder(Stamp(env, f), t.updated, t.updated);
    TextOrder(Stamp(env, f), Stamp(env, f), t.updated);
    forall g | g in faces ensures TextLeq(Stamp(env, g), next.updated) {
      if g in part {
        TextOrder(Stamp(env, g), t.updated, next.updated);
      }
    }
  }

  /**
   What the loop computes: counts, sizes, ratio and every distribution key are sums over
   the faces, and score, level and stamp are maxima that some face attains, unless all
   are at or below the defaults.
   */
  lemma {:induction false} TotalsAreSumsAndMaxima(env: Env, faces: seq<Dict>)
    ensures var t := AddFaces(env, NO_TOTALS, faces);
            Sums(env, faces, t) && Keys(env, faces, t) && Maxima(env, faces, t)
  {
    hide AddFace, Sums, Keys, Maxima;
    if faces == [] {
      NothingTotalled(env);
    } else {
      var part := faces[..|faces| - 1];
      TotalsAreSumsAndMaxima(env, part);
      AddFacesLast(env, NO_TOTALS, faces);
      assert faces == part + [faces[|faces| - 1]];
      SumsAdd(env, part, faces[|faces| - 1], AddFaces(env, NO_TOTALS, part));
      MaximaAdd(env, part, faces[|faces| - 1], AddFaces(env, NO_TOTALS, part));
    }
  }

  lemma NothingTotalled(env: Env)
    ensures Sums(env, [], NO_TOTALS) && Keys(env, [], NO_TOTALS) && Maxima(env, [], NO_TOTALS)
  {
  }

  /** The accumulator loop. */
  method AggregateTotals(env: Env, faces: seq<Dict>) returns (t: Totals)
    ensures t == AddFaces(env, NO_TOTALS, faces)
    ensures Sums(env, faces, t) && Keys(env, faces, t) && Maxima(env, faces, t)
  {
    hide AddFace, Sums, Keys, Maxima;
    t := NO_TOTALS;
    for i := 0 to |faces|
      invariant AddFaces(env, NO_TOTALS, faces) == AddFaces(env, t, faces[i..])
    {
      assert faces[i..][0] == faces[i] && faces[i..][1..] == faces[i + 1..];
      t := AddFace(env, t, faces[i]);
    }
    TotalsAreSumsAndMaxima(env, faces);
  }

  lemma {:induction false} SumWithout(env: Env, faces: seq<Dict>, i: nat, c: Count)
    requires i < |faces|
    ensures Sum(env, faces, c) == Sum(env, faces[..i] + faces[i + 1..], c) + Counted(env, faces[i], c)
  {
    hide Counted;
    var n := |faces| - 1;
    var rest := faces[..i] + faces[i + 1..];
    if i == n {
      assert rest == faces[..n];
    } else {
      SumWithout(env, faces[..n], i, c);
      assert rest[..|rest| - 1] == faces[..n][..i] + faces[..n][i + 1..];
    }
  }

  lemma TakeOut(a: seq<Dict>, b: seq<Dict>) returns (i: nat)
    requires multiset(a) == multiset(b) && a != []
    ensures i < |b| && b[i] == a[|a| - 1]
    ensures multiset(a[..|a| - 1]) == multiset(b[..i] + b[i + 1..])
  {
    var n := |a| - 1;
    assert a == a[..n] + [a[n]];
    assert a[n] in multiset(b);
    i :| 0 <= i < |b| && b[i] == a[n];
    assert b == b[..i] + [b[i]] + b[i + 1..];
    assert multiset(a[..n]) == multiset(a) - multiset{a[n]};
    assert multiset(b[..i] + b[i + 1..]) == multiset(b) - multiset{a[n]};
  }

  lemma {:induction false} SumPermutes(env: Env, a: seq<Dict>, b: seq<Dict>, c: Count)
    requires multiset(a) == multiset(b)
    ensures Sum(env, a, c) == Sum(env, b, c)
    decreases |a|
  {
    hide Counted;
    if a == [] {
      assert |multiset(b)| == 0;
    } else {
      var i := TakeOut(a, b);
      SumWithout(env, b, i, c);
      SumPermutes(env, a[..|a| - 1], b[..i] + b[i + 1..], c);
    }
  }

  lemma SameMembers(a: seq<Dict>, b: seq<Dict>)
    requires multiset(a) == multiset(b)
    ensures forall f :: f in a <==> f in b
  {
    assert forall f :: f in a <==> f in multiset(a);
    assert forall f :: f in b <==> f in multiset(b);
  }

  lemma SameMaxima(env: Env, a: seq<Dict>, b: seq<Dict>, t: Totals, u: Totals)
    requires (forall f :: f in a <==> f in b) && Maxima(env, a, t) && Maxima(env, b, u)
    ensures t.score == u.score && t.level == u.level && t.updated == u.updated
  {
    hide Score, Level, Stamp, TextLeq;
    TextOrder(t.updated, u.updated, u.updated);
    EmptyFirst(u.updated);
    EmptyFirst(t.updated);
  }

  lemma EmptyFirst(s: string)
    ensures TextLeq("", s)
  {
  }

  /** But for the ratio, which is added up in floating point, the totals do not depend on the order of the faces. */
  lemma TotalsIgnoreOrder(env: Env, a: seq<Dict>, b: seq<Dict>)
    requires multiset(a) == multiset(b)
    ensures AddFaces(env, NO_TOTALS, a).(ratio := 0.0) == AddFaces(env, NO_TOTALS, b).(ratio := 0.0)
  {
    hide AddFaces, Types, Maxima, Sum;
    var t, u := AddFaces(env, NO_TOTALS, a), AddFaces(env, NO_TOTALS, b);
    TotalsAreSumsAndMaxima(env, a);
    TotalsAreSumsAndMaxima(env, b);
    SameMembers(a, b);
    SumPermutes(env, a, b, FileCount);
    SumPermutes(env, a, b, TotalSize);
    forall key | key in t.distribution ensures t.distribution[key] == Sum(env, b, OfType(key)) {
      SumPermutes(env, a, b, OfType(key));
    }
    assert t.distribution.Keys == u.distribution.Keys;
    assert t.distribution == u.distribution;
    SameMaxima(env, a, b, t, u);
  }

  // ---- what the profile says ----

  predicate AnyLevel(env: Env, faces: seq<Dict>, level: string) {
    exists f :: f in faces && Level(env, f) == level
  }

  /** The profile a record carries: each total under its own key, and HIGH over MEDIUM over LOW. */
  lemma AggregateSays(env: Env, faces: seq<Dict>)
    ensures var a := Aggregate(env, faces);
            && a.Keys == {"dummy_file_count", "dummy_total_size", "occupancy_ratio", "file_type_distribution",
                          "plausibility_score", "plausibility_level", "last_updated_at"}
            && a["dummy_file_count"] == I(Sum(env, faces, FileCount))
            && a["dummy_total_size"] == I(Sum(env, faces, TotalSize))
            && a["occupancy_ratio"] == R(RatioSum(env, faces))
            && a["plausibility_level"] == S(if AnyLevel(env, faces, "HIGH") then "HIGH"
                                            else if AnyLevel(env, faces, "MEDIUM") then "MEDIUM" else "LOW")
            && a["plausibility_score"].I? && a["last_updated_at"].S? && a["file_type_distribution"].D?
  {
    hide AddFaces, Score, Level, Stamp, Sum, RatioSum, Keys, TextLeq;
    TotalsAreSumsAndMaxima(env, faces);
  }

  /** The highest score and the latest stamp, and nothing where there is none. */
  lemma AggregateMaxima(env: Env, faces: seq<Dict>)
    ensures var a := Aggregate(env, faces);
            && "plausibility_score" in a && a["plausibility_score"].I? && "last_updated_at" in a
            && a["last_updated_at"].S?
            && (forall f | f in faces :: Score(env, f) <= a["plausibility_score"].n
                                         && TextLeq(Stamp(env, f), a["last_updated_at"].s))
            && (a["plausibility_score"].n == 0
                || exists f :: f in faces && Score(env, f) == a["plausibility_score"].n)
            && (a["last_updated_at"].s == "" || exists f :: f in faces && Stamp(env, f) == a["last_updated_at"].s)
  {
    hide AddFaces, Score, Level, Stamp, Sum, RatioSum, Keys, TextLeq;
    TotalsAreSumsAndMaxima(env, faces);
  }

  /** A file type's entry is the sum of the faces' entries for it, and only types some face has are there. */
  lemma AggregateTypes(env: Env, faces: seq<Dict>, key: string)
    ensures var a := Aggregate(env, faces);
            && "file_type_distribution" in a && a["file_type_distribution"].D?
            && (key in a["file_type_distribution"].fields <==> exists f :: f in faces && key in Types(env, f))
            && (key in a["file_type_distribution"].fields
                ==> a["file_type_distribution"].fields[key] == I(Sum(env, faces, OfType(key))))
  {
    hide AddFaces, Types, Sum, RatioSum, Maxima;
    TotalsAreSumsAndMaxima(env, faces);
  }
}
