/**
 The file map of one Face (vessel_workflow_service.py): stores, removals, filler
 generation and clearing, and the choice of which file a retrieval returns.
 Every call reads the map from the vault, changes its copy and writes it back;
 `write` says what the vault made of the new copy.
 */
module FaceNamespace {
  import opened Wrappers
  import opened Text

  /** `Legacy` is an entry without the key, made from a slot holding one bare file. */
  datatype Origin = Manual | Generated | Legacy

  /** Time stamps sort as the instants they name; the empty stamp of a legacy file is -1. */
  datatype FileEntry = FileEntry(data: string, addedAt: int, origin: Origin, storeSeq: nat)

  type Files = map<string, FileEntry>

  /** The encoding of the map and the capacity filler may use. */
  datatype Config = Config(encode: Files -> string, maxPayload: int)

  /** The vault refused the new copy, or raised with only the open slot written, or took it whole. */
  datatype Write = Refused | HalfDone | Whole {
    predicate Took() {
      !Refused?
    }
  }

  datatype Op =
    | Add(name: string, data: string, at: int, write: Write)
    | Remove(name: string, write: Write)
    | Generate(specs: seq<(string, string)>, at: int, write: Write)
    | Clear(write: Write)

  datatype Outcome = Done | FileNotFound | NothingFits | NotPersisted | RestrictedFailed

  // ---- the file map ----

  ghost function MaxSeq(files: Files): nat
    decreases |files|
  {
    if files == map[] then 0
    else
      var n :| n in files;
      var rest := MaxSeq(files - {n});
      if files[n].storeSeq > rest then files[n].storeSeq else rest
  }

  lemma {:induction false} MaxSeqBounds(files: Files)
    ensures forall n | n in files :: files[n].storeSeq <= MaxSeq(files)
    ensures files != map[] ==> exists n :: n in files && files[n].storeSeq == MaxSeq(files)
    decreases |files|
  {
    if files != map[] {
      var n :| n in files && MaxSeq(files)
          == (var rest := MaxSeq(files - {n}); if files[n].storeSeq > rest then files[n].storeSeq else rest);
      MaxSeqBounds(files - {n});
      assert forall m | m in files :: m == n || m in files - {n};
      if files - {n} != map[] {
        var m :| m in files - {n} && (files - {n})[m].storeSeq == MaxSeq(files - {n});
        assert files[m].storeSeq == MaxSeq(files - {n});
      }
    }
  }

  function WithoutGenerated(files: Files): Files {
    map n | n in files && files[n].origin != Generated :: files[n]
  }

  function GeneratedEntry(payload: string, at: int): FileEntry {
    FileEntry(payload, at, Generated, 0)
  }

  /** Filler goes in spec by spec, skipping operator files, until one does not fit. */
  function Fill(cfg: Config, files: Files, specs: seq<(string, string)>, at: int): Files
    decreases |specs|
  {
    if specs == [] then files
    else
      var (name, payload) := specs[0];
      if name in files && files[name].origin != Generated then Fill(cfg, files, specs[1..], at)
      else
        var grown := files[name := GeneratedEntry(payload, at)];
        if |cfg.encode(grown)| > cfg.maxPayload then grown - {name}
        else Fill(cfg, grown, specs[1..], at)
  }

  predicate HasGenerated(files: Files) {
    exists n :: n in files && files[n].origin == Generated
  }

  /** What an operation does to its copy of the map, or the error it raises before writing. */
  ghost function Change(cfg: Config, files: Files, op: Op): Result<Files, Outcome> {
    match op
    case Add(name, data, at, _) => Ok(files[name := FileEntry(data, at, Manual, MaxSeq(files) + 1)])
    case Remove(name, _) => if name !in files then Err(FileNotFound) else Ok(files - {name})
    case Generate(specs, at, _) =>
      var filled := Fill(cfg, WithoutGenerated(files), specs, at);
      if HasGenerated(filled) then Ok(filled) else Err(NothingFits)
    case Clear(_) => Ok(WithoutGenerated(files))
  }

  /** The map read next, and how the call ends. */
  ghost function Persist(files: Files, changed: Files, write: Write): (Files, Outcome) {
    match write
    case Refused => (files, NotPersisted)
    case HalfDone => (changed, RestrictedFailed)
    case Whole => (changed, Done)
  }

  ghost function Step(cfg: Config, files: Files, op: Op): (Files, Outcome) {
    var change := Change(cfg, files, op);
    if change.Err? then (files, change.reason) else Persist(files, change.value, op.write)
  }

  ghost function Run(cfg: Config, files: Files, ops: seq<Op>): Files
    decreases |ops|
  {
    if ops == [] then files else Run(cfg, Step(cfg, files, ops[0]).0, ops[1..])
  }

  // ---- what each operation leaves ----

  /** How a call ends by how its write ended, and which map is read next. */
  ghost predicate Ended(before: Files, after: Files, outcome: Outcome, write: Write) {
    && (write == Whole <==> outcome == Done) && (write == HalfDone <==> outcome == RestrictedFailed)
    && (write == Refused <==> outcome == NotPersisted)
    && (write == Refused ==> after == before)
  }

  /** An added file is there as given, at its stamp, numbered above all others, which stay. */
  ghost predicate AddedTo(before: Files, after: Files, name: string, data: string, at: int) {
    && name in after && after[name].data == data && after[name].addedAt == at && after[name].origin == Manual
    && (forall n | n in before :: before[n].storeSeq < after[name].storeSeq)
    && (after[name].storeSeq == 1 || exists n :: n in before && after[name].storeSeq == before[n].storeSeq + 1)
    && (forall n | n != name :: (n in after <==> n in before) && (n in before ==> after[n] == before[n]))
  }

  /** No filler is left, and every other file is there with its old value. */
  ghost predicate ClearedFrom(before: Files, after: Files) {
    forall n :: (n in after <==> n in before && before[n].origin != Generated) && (n in after ==> after[n] == before[n])
  }

  /** Every file but filler stays; what filler there is comes from the specs, with its payload, at the stamp. */
  ghost predicate FilledFrom(before: Files, after: Files, specs: seq<(string, string)>, at: int) {
    && (forall n | n in before && before[n].origin != Generated :: n in after && after[n] == before[n])
    && (forall n | n in after && after[n].origin != Generated :: n in before && after[n] == before[n])
    && (forall n | n in after && after[n].origin == Generated ::
          (n, after[n].data) in specs && after[n].addedAt == at && after[n].storeSeq == 0)
  }

  lemma AddExactly(cfg: Config, files: Files, name: string, data: string, at: int, write: Write)
    ensures var r := Step(cfg, files, Add(name, data, at, write));
            Ended(files, r.0, r.1, write) && (write.Took() ==> AddedTo(files, r.0, name, data, at))
  {
    assert files == map[] ==> MaxSeq(files) == 0;
    hide MaxSeq;
    MaxSeqBounds(files);
  }

  lemma ClearExactly(cfg: Config, files: Files, write: Write)
    ensures var r := Step(cfg, files, Clear(write));
            Ended(files, r.0, r.1, write) && (write.Took() ==> ClearedFrom(files, r.0))
  {
  }

  /** A missing name is an error; any other is gone, and only it. */
  lemma RemoveExactly(cfg: Config, files: Files, name: string, write: Write)
    ensures var r := Step(cfg, files, Remove(name, write));
            if name !in files then r == (files, FileNotFound)
            else && Ended(files, r.0, r.1, write)
                 && (write.Took() ==> name !in r.0 && forall n | n != name ::
                       (n in r.0 <==> n in files) && (n in files ==> r.0[n] == files[n]))
  {
  }

  lemma {:induction false} FillFrom(cfg: Config, files: Files, specs: seq<(string, string)>, at: int)
    ensures var r := Fill(cfg, files, specs, at);
            forall n | n in r :: (n in files && r[n] == files[n])
                                 || (r[n] == FileEntry(r[n].data, at, Generated, 0) && (n, r[n].data) in specs)
    decreases |specs|
  {
    if specs != [] {
      var (name, payload) := specs[0];
      assert specs == [specs[0]] + specs[1..] && (name, payload) in specs;
      if name in files && files[name].origin != Generated {
        FillFrom(cfg, files, specs[1..], at);
      } else {
        FillFrom(cfg, files[name := GeneratedEntry(payload, at)], specs[1..], at);
      }
    }
  }

  lemma GenerateExactly(cfg: Config, files: Files, specs: seq<(string, string)>, at: int, write: Write)
    ensures var r := Step(cfg, files, Generate(specs, at, write));
            || (r == (files, NothingFits))
            || (Ended(files, r.0, r.1, write)
                && (write.Took() ==> FilledFrom(files, r.0, specs, at) && HasGenerated(r.0)))
  {
    hide Fill;
    var kept := WithoutGenerated(files);
    FillFrom(cfg, kept, specs, at);
    FillKeepsOperatorFiles(cfg, kept, specs, at);
    var filled := Fill(cfg, kept, specs, at);
    assert WithoutGenerated(kept) == kept;
    forall n | n in files && files[n].origin != Generated ensures n in filled && filled[n] == files[n] {
      assert n in WithoutGenerated(filled) && WithoutGenerated(filled)[n] == kept[n];
    }
  }

  /** The specs whose names no operator file has, laid over the map. */
  function Overlay(files: Files, specs: seq<(string, string)>, at: int): Files {
    if specs == [] then files
    else
      var (name, payload) := specs[|specs| - 1];
      var before := Overlay(files, specs[..|specs| - 1], at);
      if name in before && before[name].origin != Generated then before
      else before[name := FileEntry(payload, at, Generated, 0)]
  }

  lemma {:induction false} OverlayFirst(files: Files, specs: seq<(string, string)>, at: int)
    requires specs != []
    ensures var (name, payload) := specs[0];
            Overlay(files, specs, at)
            == Overlay(if name in files && files[name].origin != Generated then files
                       else files[name := FileEntry(payload, at, Generated, 0)], specs[1..], at)
  {
    var n := |specs| - 1;
    if n > 0 {
      OverlayFirst(files, specs[..n], at);
      assert specs[..n][1..] == specs[1..][..n - 1];
    } else {
      assert specs[..n] == [] && specs[1..] == [];
    }
  }

  /**
   Filling stops at the first spec whose map would not fit: what is left is every spec
   before it, and with distinct names the one after would exceed the capacity.
   */
  lemma {:induction false} FillIsLongestPrefix(cfg: Config, files: Files, specs: seq<(string, string)>, at: int)
    returns (k: nat)
    requires forall i, j | 0 <= i < j < |specs| :: specs[i].0 != specs[j].0
    requires forall i | 0 <= i < |specs| && specs[i].0 in files :: files[specs[i].0].origin != Generated
    ensures k <= |specs| && Fill(cfg, files, specs, at) == Overlay(files, specs[..k], at)
    ensures k < |specs| ==> |cfg.encode(Overlay(files, specs[..k + 1], at))| > cfg.maxPayload
    decreases |specs|
  {
    k := 0;
    if specs != [] {
      var (name, payload) := specs[0];
      var next := if name in files && files[name].origin != Generated then files
                  else files[name := FileEntry(payload, at, Generated, 0)];
      if next != files && |cfg.encode(next)| > cfg.maxPayload {
        assert next - {name} == files;
        OverlayFirst(files, specs[..1], at);
        assert specs[..1][1..] == [];
      } else {
        forall i | 0 <= i < |specs[1..]| && specs[1..][i].0 in next ensures next[specs[1..][i].0].origin != Generated {
          assert specs[1..][i] == specs[i + 1];
        }
        k := FillIsLongestPrefix(cfg, next, specs[1..], at);
        OverlayFirst(files, specs[..k + 1], at);
        assert specs[..k + 1][1..] == specs[1..][..k];
        if k < |specs[1..]| {
          OverlayFirst(files, specs[..k + 2], at);
          assert specs[..k + 2][1..] == specs[1..][..k + 1];
        }
        k := k + 1;
      }
    }
  }

  /**
   Generating puts in, over the operator files, the longest prefix of the specs that
   fits, less those named like an operator file; it refuses exactly when that leaves none.
   */
  lemma GenerateFillsLongestPrefix(cfg: Config, files: Files, specs: seq<(string, string)>, at: int) returns (k: nat)
    requires forall i, j | 0 <= i < j < |specs| :: specs[i].0 != specs[j].0
    ensures k <= |specs|
    ensures var kept := map n | n in files && files[n].origin != Generated :: files[n];
            && (k < |specs| ==> |cfg.encode(Overlay(kept, specs[..k + 1], at))| > cfg.maxPayload)
            && Step(cfg, files, Generate(specs, at, Whole))
               == if forall i | 0 <= i < k :: specs[i].0 in kept then (files, NothingFits)
                  else (Overlay(kept, specs[..k], at), Done)
  {
    hide Fill, Overlay;
    var kept := WithoutGenerated(files);
    k := FillIsLongestPrefix(cfg, kept, specs, at);
    OverlayHasGenerated(kept, specs[..k], at);
    assert forall i | 0 <= i < k :: specs[..k][i] == specs[i];
  }

  predicate NamedIn(specs: seq<(string, string)>, name: string) {
    exists i :: 0 <= i < |specs| && specs[i].0 == name
  }

  lemma {:induction false} OverlayNames(kept: Files, specs: seq<(string, string)>, at: int)
    requires forall n | n in kept :: kept[n].origin != Generated
    ensures forall n :: n in Overlay(kept, specs, at) <==> n in kept || NamedIn(specs, n)
    ensures forall n :: n in kept ==> n in Overlay(kept, specs, at) && Overlay(kept, specs, at)[n] == kept[n]
    ensures forall n :: n in Overlay(kept, specs, at) && n !in kept ==> Overlay(kept, specs, at)[n].origin == Generated
  {
    if specs != [] {
      var k := |specs| - 1;
      OverlayNames(kept, specs[..k], at);
      forall n ensures NamedIn(specs, n) <==> NamedIn(specs[..k], n) || n == specs[k].0 {
        if NamedIn(specs, n) {
          var i :| 0 <= i < |specs| && specs[i].0 == n;
          assert i < k ==> specs[..k][i] == specs[i];
        }
        if NamedIn(specs[..k], n) {
          var i :| 0 <= i < k && specs[..k][i].0 == n;
          assert specs[i].0 == n;
        }
      }
    }
  }

  lemma OverlayHasGenerated(kept: Files, specs: seq<(string, string)>, at: int)
    requires forall n | n in kept :: kept[n].origin != Generated
    ensures HasGenerated(Overlay(kept, specs, at)) <==> exists i :: 0 <= i < |specs| && specs[i].0 !in kept
  {
    hide Overlay;
    OverlayNames(kept, specs, at);
    var filled := Overlay(kept, specs, at);
    if HasGenerated(filled) {
      var n :| n in filled && filled[n].origin == Generated;
      assert n !in kept && NamedIn(specs, n);
    }
    if i :| 0 <= i < |specs| && specs[i].0 !in kept {
      assert NamedIn(specs, specs[i].0) && specs[i].0 in filled;
    }
  }

  // ---- the store history ----

  /** The operator's files still present, in the order they were last stored. */
  datatype Stored = Stored(name: string, data: string)

  function Without(live: seq<Stored>, name: string): (r: seq<Stored>) {
    if live == [] then []
    else (if live[0].name == name then [] else [live[0]]) + Without(live[1..], name)
  }

  function HistoryStep(live: seq<Stored>, op: Op): seq<Stored> {
    match op
    case Add(name, data, _, write) => if write.Took() then Without(live, name) + [Stored(name, data)] else live
    case Remove(name, write) => if write.Took() then Without(live, name) else live
    case Generate(_, _, _) => live
    case Clear(_) => live
  }

  function History(live: seq<Stored>, ops: seq<Op>): seq<Stored>
    decreases |ops|
  {
    if ops == [] then live else History(HistoryStep(live, ops[0]), ops[1..])
  }

  /** The map's operator files are exactly the history's, numbered in its order. */
  ghost predicate Tracks(files: Files, live: seq<Stored>) {
    && (forall i | 0 <= i < |live| :: live[i].name in files && files[live[i].name].origin != Generated
                                   && files[live[i].name].data == live[i].data)
    && (forall n | n in files && files[n].origin != Generated :: exists i :: 0 <= i < |live| && live[i].name == n)
    && (forall i, j | 0 <= i < j < |live| :: files[live[i].name].storeSeq < files[live[j].name].storeSeq)
  }

  lemma {:induction false} WithoutMembers(live: seq<Stored>, name: string)
    ensures forall s :: s in Without(live, name) <==> s in live && s.name != name
  {
    if live != [] {
      WithoutMembers(live[1..], name);
      assert live == [live[0]] + live[1..];
    }
  }

  /** Two files left keep their order: their places in `live`. */
  lemma {:induction false} WithoutOrdered(live: seq<Stored>, name: string, i: nat, j: nat) returns (p: nat, q: nat)
    requires i < j < |Without(live, name)|
    ensures p < q < |live| && live[p] == Without(live, name)[i] && live[q] == Without(live, name)[j]
  {
    var rest := Without(live[1..], name);
    var k := if live[0].name == name then 0 else 1;
    if i < k {
      WithoutMembers(live[1..], name);
      assert rest[j - 1] in live[1..];
      var r :| 0 <= r < |live[1..]| && live[1..][r] == rest[j - 1];
      p, q := 0, r + 1;
    } else {
      p, q := WithoutOrdered(live[1..], name, i - k, j - k);
      p, q := p + 1, q + 1;
    }
  }

  /** Dropping a name from both sides keeps them in step. */
  lemma TracksWithout(files: Files, live: seq<Stored>, name: string)
    requires Tracks(files, live)
    ensures Tracks(files - {name}, Without(live, name))
  {
    hide Without;
    WithoutMembers(live, name);
    var part, f := Without(live, name), files - {name};
    forall i | 0 <= i < |part|
      ensures part[i].name in f && f[part[i].name].origin != Generated && f[part[i].name].data == part[i].data
    {
      assert part[i] in part;
    }
    forall n | n in f && f[n].origin != Generated ensures exists i :: 0 <= i < |part| && part[i].name == n {
      var i :| 0 <= i < |live| && live[i].name == n;
      assert live[i] in part;
    }
    forall i, j | 0 <= i < j < |part| ensures f[part[i].name].storeSeq < f[part[j].name].storeSeq {
      var p, q := WithoutOrdered(live, name, i, j);
    }
  }

  lemma TracksAppend(files: Files, part: seq<Stored>, name: string, e: FileEntry)
    requires Tracks(files - {name}, part) && e.origin != Generated
    requires forall n | n in files :: files[n].storeSeq < e.storeSeq
    ensures Tracks(files[name := e], part + [Stored(name, e.data)])
  {
    var grown, longer := files[name := e], part + [Stored(name, e.data)];
    forall i | 0 <= i < |part|
      ensures longer[i] == part[i] && part[i].name in files - {name} && grown[part[i].name] == files[part[i].name]
    {
    }
    forall n | n in grown && grown[n].origin != Generated ensures exists i :: 0 <= i < |longer| && longer[i].name == n {
      if n == name {
        assert longer[|part|].name == n;
      } else {
        assert n in files - {name} && (files - {name})[n].origin != Generated;
        var i :| 0 <= i < |part| && part[i].name == n;
        assert longer[i].name == n;
      }
    }
  }

  /** A new file takes a number above every number present, so it ends the history. */
  lemma TracksAdd(files: Files, live: seq<Stored>, name: string, data: string, at: int)
    requires Tracks(files, live)
    ensures Tracks(files[name := FileEntry(data, at, Manual, MaxSeq(files) + 1)],
                   Without(live, name) + [Stored(name, data)])
  {
    hide Tracks, MaxSeq, Without;
    TracksWithout(files, live, name);
    MaxSeqBounds(files);
    TracksAppend(files, Without(live, name), name, FileEntry(data, at, Manual, MaxSeq(files) + 1));
  }

  /** Filling adds and drops generated entries only. */
  lemma {:induction false} FillKeepsOperatorFiles(cfg: Config, files: Files, specs: seq<(string, string)>, at: int)
    ensures WithoutGenerated(Fill(cfg, files, specs, at)) == WithoutGenerated(files)
    decreases |specs|
  {
    if specs != [] {
      var (name, payload) := specs[0];
      if name in files && files[name].origin != Generated {
        FillKeepsOperatorFiles(cfg, files, specs[1..], at);
      } else {
        var grown := files[name := GeneratedEntry(payload, at)];
        assert WithoutGenerated(grown) == WithoutGenerated(files);
        assert WithoutGenerated(grown - {name}) == WithoutGenerated(files);
        FillKeepsOperatorFiles(cfg, grown, specs[1..], at);
      }
    }
  }

  /** Generating or clearing filler leaves every operator file as it was, whatever it is named. */
  lemma FillerKeepsOperatorFiles(cfg: Config, files: Files, op: Op)
    requires op.Generate? || op.Clear?
    ensures WithoutGenerated(Step(cfg, files, op).0) == WithoutGenerated(files)
  {
    assert WithoutGenerated(WithoutGenerated(files)) == WithoutGenerated(files);
    if op.Generate? {
      FillKeepsOperatorFiles(cfg, WithoutGenerated(files), op.specs, op.at);
    }
  }

  lemma TracksSameOperatorFiles(files: Files, other: Files, live: seq<Stored>)
    requires Tracks(files, live) && WithoutGenerated(files) == WithoutGenerated(other)
    ensures Tracks(other, live)
  {
    forall n | n in files && files[n].origin != Generated ensures n in other && other[n] == files[n] {
      assert n in WithoutGenerated(files) && WithoutGenerated(other)[n] == files[n];
    }
    forall n | n in other && other[n].origin != Generated ensures n in files && other[n] == files[n] {
      assert n in WithoutGenerated(other) && WithoutGenerated(files)[n] == other[n];
    }
  }

  /** Removing filler by name touches no operator file; removing an operator file drops its store. */
  lemma StepTracks(cfg: Config, files: Files, live: seq<Stored>, op: Op)
    requires Tracks(files, live)
    ensures Tracks(Step(cfg, files, op).0, HistoryStep(live, op))
  {
    hide Tracks, MaxSeq, Fill, Without, WithoutGenerated;
    match op
    case Add(name, data, at, write) =>
      TracksAdd(files, live, name, data, at);
    case Remove(name, write) =>
      TracksWithout(files, live, name);
      if name !in files {
        assert files - {name} == files;
      }
    case Generate(_, _, _) =>
      FillerKeepsOperatorFiles(cfg, files, op);
      TracksSameOperatorFiles(files, Step(cfg, files, op).0, live);
    case Clear(_) =>
      FillerKeepsOperatorFiles(cfg, files, op);
      TracksSameOperatorFiles(files, Step(cfg, files, op).0, live);
  }

  /** Every run of the Face's operations refines the history of its stores. */
  lemma {:induction false} RunTracks(cfg: Config, files: Files, live: seq<Stored>, ops: seq<Op>)
    requires Tracks(files, live)
    ensures Tracks(Run(cfg, files, ops), History(live, ops))
    decreases |ops|
  {
    if ops != [] {
      StepTracks(cfg, files, live, ops[0]);
      RunTracks(cfg, Step(cfg, files, ops[0]).0, HistoryStep(live, ops[0]), ops[1..]);
    }
  }

  // ---- selection ----

  /** The sort key: stamp, then store number, then name. */
  predicate StoreOrderLeq(files: Files, a: string, b: string)
    requires a in files && b in files
  {
    var x, y := files[a], files[b];
    x.addedAt < y.addedAt
    || (x.addedAt == y.addedAt && (x.storeSeq < y.storeSeq || (x.storeSeq == y.storeSeq && TextLeq(a, b))))
  }

  lemma StoreOrderIsTotal(files: Files, a: string, b: string, c: string)
    requires a in files && b in files && c in files
    ensures StoreOrderLeq(files, a, a) && StoreOrderLeq(files, c, c)
    ensures StoreOrderLeq(files, a, b) || StoreOrderLeq(files, b, a)
    ensures StoreOrderLeq(files, a, b) && StoreOrderLeq(files, b, c) ==> StoreOrderLeq(files, a, c)
  {
    TextOrder(a, b, c);
    TextOrder(a, a, a);
    TextOrder(c, c, c);
  }

  /** Operator files when there are any, otherwise every file. */
  function Candidates(files: Files): set<string> {
    var operators := set n | n in files && files[n].origin != Generated;
    if operators != {} then operators else files.Keys
  }

  /** The candidate a retrieval that names no file returns. */
  ghost predicate IsChosen(files: Files, n: string) {
    n in Candidates(files) && n in files
        && forall m | m in Candidates(files) && m in files :: StoreOrderLeq(files, m, n)
  }

  lemma ChosenIsUnique(files: Files, a: string, b: string)
    requires IsChosen(files, a) && IsChosen(files, b)
    ensures a == b
  {
    assert StoreOrderLeq(files, a, b) && StoreOrderLeq(files, b, a);
    TextOrder(a, b, b);
  }

  /** Nothing that could be chosen is later: not by stamp, at the same stamp not by number, then not by name. */
  lemma ChosenBeats(files: Files, n: string, m: string)
    requires IsChosen(files, n) && m in files && m != n
    requires files[m].origin != Generated || forall o | o in files :: files[o].origin == Generated
    ensures files[m].addedAt <= files[n].addedAt
    ensures files[m].addedAt == files[n].addedAt ==> files[m].storeSeq <= files[n].storeSeq
    ensures files[m].addedAt == files[n].addedAt && files[m].storeSeq == files[n].storeSeq ==> TextLeq(m, n)
    ensures files[m].origin != Generated ==> files[n].origin != Generated
  {
    var operators := set x | x in files && files[x].origin != Generated;
    if files[m].origin != Generated {
      assert m in operators && Candidates(files) == operators;
    } else {
      assert operators == {} && Candidates(files) == files.Keys;
    }
    assert StoreOrderLeq(files, m, n);
  }

  /**
   With operator files present, the file a nameless retrieval returns is the one
   stored last, ties within a second and reused numbers included, exactly when no
   surviving earlier file carries a later stamp.
   */
  lemma ChosenIsLastStored(files: Files, live: seq<Stored>)
    requires Tracks(files, live) && live != []
    ensures var last := live[|live| - 1].name;
            IsChosen(files, last) <==> forall i | 0 <= i < |live| :: files[live[i].name].addedAt <= files[last].addedAt
  {
    var last := live[|live| - 1].name;
    hide TextLeq;
    var operators := set n | n in files && files[n].origin != Generated;
    assert last in operators && Candidates(files) == operators;
    if forall i | 0 <= i < |live| :: files[live[i].name].addedAt <= files[last].addedAt {
      forall m | m in Candidates(files) ensures StoreOrderLeq(files, m, last) {
        var i :| 0 <= i < |live| && live[i].name == m;
        if m != last {
          assert i < |live| - 1;
        } else {
          StoreOrderIsTotal(files, m, m, m);
        }
      }
    } else {
      var i :| 0 <= i < |live| && files[live[i].name].addedAt > files[last].addedAt;
      assert live[i].name in Candidates(files);
      assert !StoreOrderLeq(files, live[i].name, last);
    }
  }

  /** A clock stepping back is all it takes: the later store is not returned. */
  lemma ClockStepsBack(cfg: Config)
    ensures var files := Run(cfg, map[], [Add("a", "first", 5, Whole), Add("b", "second", 3, Whole)]);
            IsChosen(files, "a") && !IsChosen(files, "b")
  {
    var ops := [Add("a", "first", 5, Whole), Add("b", "second", 3, Whole)];
    var one := Step(cfg, map[], ops[0]).0;
    var two := Step(cfg, one, ops[1]).0;
    assert ops[1..] == [ops[1]] && ops[1..][1..] == [];
    assert Run(cfg, map[], ops) == Run(cfg, one, [ops[1]]) == Run(cfg, two, []) == two;
    assert "b" in two && "a" in two && !StoreOrderLeq(two, "a", "b");
    TextOrder("a", "a", "a");
    assert Candidates(two) == {"a", "b"};
  }

  // ---- non-decreasing clocks ----

  function StampOf(op: Op, before: int): int {
    match op
    case Add(_, _, at, _) => at
    case Generate(_, at, _) => at
    case _ => before
  }

  ghost predicate ClockNeverStepsBack(start: int, ops: seq<Op>)
    decreases |ops|
  {
    ops == [] || (start <= StampOf(ops[0], start) && ClockNeverStepsBack(StampOf(ops[0], start), ops[1..]))
  }

  /** Stamps rise along the history and stay at or below the clock. */
  ghost predicate StampsRise(files: Files, live: seq<Stored>, clock: int) {
    && (forall i | 0 <= i < |live| :: live[i].name in files && files[live[i].name].addedAt <= clock)
    && (forall i, j | 0 <= i < j < |live| :: files[live[i].name].addedAt <= files[live[j].name].addedAt)
  }

  lemma StepStampsRise(cfg: Config, files: Files, live: seq<Stored>, clock: int, op: Op)
    requires Tracks(files, live) && StampsRise(files, live, clock) && clock <= StampOf(op, clock)
    ensures StampsRise(Step(cfg, files, op).0, HistoryStep(live, op), StampOf(op, clock))
  {
    hide StampsRise, Tracks, Fill, MaxSeq, WithoutGenerated, Without;
    var next := Step(cfg, files, op).0;
    LaterStampsRise(files, live, clock, StampOf(op, clock));
    match op
    case Add(name, data, at, write) =>
      if write.Took() {
        AddStampsRise(files, live, clock, name, FileEntry(data, at, Manual, MaxSeq(files) + 1));
      }
    case Remove(name, write) =>
      if name in files && write.Took() {
        PartStampsRise(files, next, live, clock, name);
      } else if name !in files {
        PartStampsRise(files, files, live, clock, name);
      }
    case Generate(_, at, _) =>
      FillerKeepsOperatorFiles(cfg, files, op);
      SameStampsRise(files, next, live, StampOf(op, clock));
    case Clear(_) =>
      FillerKeepsOperatorFiles(cfg, files, op);
      SameStampsRise(files, next, live, clock);
  }

  lemma LaterStampsRise(files: Files, live: seq<Stored>, clock: int, later: int)
    requires StampsRise(files, live, clock) && clock <= later
    ensures StampsRise(files, live, later)
  {
  }

  lemma AddStampsRise(files: Files, live: seq<Stored>, clock: int, name: string, e: FileEntry)
    requires StampsRise(files, live, clock) && clock <= e.addedAt
    ensures StampsRise(files[name := e], Without(live, name) + [Stored(name, e.data)], e.addedAt)
  {
    hide Without;
    WithoutMembers(live, name);
    PartStampsRise(files, files[name := e], live, clock, name);
    var part, last := Without(live, name), Stored(name, e.data);
    forall i | 0 <= i < |part| ensures (part + [last])[i] == part[i] && part[i].name != name {
      assert part[i] in part;
    }
  }

  lemma SameStampsRise(files: Files, other: Files, live: seq<Stored>, clock: int)
    requires Tracks(files, live) && StampsRise(files, live, clock) && WithoutGenerated(files) == WithoutGenerated(other)
    ensures StampsRise(other, live, clock)
  {
    forall i | 0 <= i < |live| ensures live[i].name in other && other[live[i].name] == files[live[i].name] {
      assert live[i].name in WithoutGenerated(files) && WithoutGenerated(other)[live[i].name] == files[live[i].name];
    }
  }

  lemma PartStampsRise(files: Files, next: Files, live: seq<Stored>, clock: int, name: string)
    requires StampsRise(files, live, clock)
    requires forall n | n in files && n != name :: n in next && next[n] == files[n]
    ensures StampsRise(next, Without(live, name), clock)
  {
    WithoutMembers(live, name);
    var part := Without(live, name);
    forall i | 0 <= i < |part|
      ensures part[i].name in next && next[part[i].name] == files[part[i].name] && part[i] in live
    {
      assert part[i] in part;
    }
    forall i, j | 0 <= i < j < |part| ensures next[part[i].name].addedAt <= next[part[j].name].addedAt {
      var p, q := WithoutOrdered(live, name, i, j);
    }
  }

  lemma {:induction false} RunStampsRise(cfg: Config, files: Files, live: seq<Stored>, clock: int, ops: seq<Op>)
    returns (end: int)
    requires Tracks(files, live) && StampsRise(files, live, clock) && ClockNeverStepsBack(clock, ops)
    ensures StampsRise(Run(cfg, files, ops), History(live, ops), end)
    decreases |ops|
  {
    if ops != [] {
      StepTracks(cfg, files, live, ops[0]);
      StepStampsRise(cfg, files, live, clock, ops[0]);
      end := RunStampsRise(cfg, Step(cfg, files, ops[0]).0, HistoryStep(live, ops[0]), StampOf(ops[0], clock),
                           ops[1..]);
    } else {
      end := clock;
    }
  }

  /**
   After any run with a clock that never steps back, from an empty Face or one bare
   legacy file, a nameless retrieval returns the bytes stored last and not removed.
   */
  lemma RunReturnsLastStored(cfg: Config, legacy: seq<Stored>, ops: seq<Op>)
    requires |legacy| <= 1 && ClockNeverStepsBack(-1, ops)
    requires History(legacy, ops) != []
    ensures var files, live := Run(cfg, LegacyFiles(legacy), ops), History(legacy, ops);
            var last := live[|live| - 1];
            IsChosen(files, last.name) && last.name in files && files[last.name].data == last.data
  {
    hide Tracks, StampsRise, ClockNeverStepsBack, Run, History, IsChosen, LegacyFiles;
    var files := LegacyFiles(legacy);
    LegacyTracks(legacy);
    RunTracks(cfg, files, legacy, ops);
    var end := RunStampsRise(cfg, files, legacy, -1, ops);
    LastChosen(Run(cfg, files, ops), History(legacy, ops), end);
  }

  lemma LegacyTracks(legacy: seq<Stored>)
    requires |legacy| <= 1
    ensures Tracks(LegacyFiles(legacy), legacy) && StampsRise(LegacyFiles(legacy), legacy, -1)
  {
  }

  lemma LastChosen(files: Files, live: seq<Stored>, clock: int)
    requires Tracks(files, live) && StampsRise(files, live, clock) && live != []
    ensures var last := live[|live| - 1];
            IsChosen(files, last.name) && last.name in files && files[last.name].data == last.data
  {
    hide IsChosen;
    ChosenIsLastStored(files, live);
  }

  /** A namespace decoded from a slot that holds one bare file, or an empty one. */
  function LegacyFiles(legacy: seq<Stored>): Files
    requires |legacy| <= 1
  {
    if legacy == [] then map[] else map[legacy[0].name := FileEntry(legacy[0].data, -1, Legacy, 0)]
  }

  // ---- the object ----

  class Face {
    const cfg: Config
    /** The map the vault's open slot holds. */
    var files: Files

    constructor (cfg: Config, files: Files)
      ensures this.cfg == cfg && this.files == files
    {
      this.cfg, this.files := cfg, files;
    }

    static method NextStoreSeq(files: Files) returns (next: nat)
      ensures next == MaxSeq(files) + 1
    {
      var highest, todo := 0, files.Keys;
      while todo != {}
        invariant todo <= files.Keys
        invariant forall n | n in files && n !in todo :: files[n].storeSeq <= highest
        invariant highest == 0 || exists n :: n in files && files[n].storeSeq == highest
        decreases |todo|
      {
        var n :| n in todo;
        todo := todo - {n};
        if files[n].storeSeq > highest {
          highest := files[n].storeSeq;
        }
      }
      MaxSeqBounds(files);
      next := highest + 1;
    }

    static method DropGenerated(files: Files) returns (kept: Files)
      ensures kept == WithoutGenerated(files)
    {
      kept := files;
      var todo := files.Keys;
      while todo != {}
        invariant todo <= files.Keys
        invariant kept == map n | n in files && (n in todo || files[n].origin != Generated) :: files[n]
        decreases |todo|
      {
        var n :| n in todo;
        todo := todo - {n};
        if kept[n].origin == Generated {
          kept := kept - {n};
        }
      }
    }

    method WriteBack(changed: Files, write: Write) returns (outcome: Outcome)
      modifies this
      ensures (files, outcome) == Persist(old(files), changed, write)
    {
      if write.Refused? {
        return NotPersisted;
      }
      files := changed;
      return if write.HalfDone? then RestrictedFailed else Done;
    }

    method AddPayload(name: string, payload: string, at: int, write: Write) returns (outcome: Outcome)
      modifies this
      ensures (files, outcome) == Step(cfg, old(files), Add(name, payload, at, write))
      ensures Ended(old(files), files, outcome, write)
      ensures write.Took() ==> AddedTo(old(files), files, name, payload, at)
    {
      AddExactly(cfg, files, name, payload, at, write);
      var next := NextStoreSeq(files);
      outcome := WriteBack(files[name := FileEntry(payload, at, Manual, next)], write);
    }

    method RemoveFile(name: string, write: Write) returns (outcome: Outcome)
      modifies this
      ensures (files, outcome) == Step(cfg, old(files), Remove(name, write))
    {
      if name !in files {
        return FileNotFound;
      }
      outcome := WriteBack(files - {name}, write);
    }

    method GenerateDummyProfile(specs: seq<(string, string)>, at: int, write: Write) returns (outcome: Outcome)
      modifies this
      ensures (files, outcome) == Step(cfg, old(files), Generate(specs, at, write))
      ensures outcome == NothingFits ==> files == old(files)
      ensures outcome != NothingFits ==> Ended(old(files), files, outcome, write)
      ensures outcome != NothingFits && write.Took() ==> FilledFrom(old(files), files, specs, at)
    {
      GenerateExactly(cfg, files, specs, at, write);
      var working := DropGenerated(files);
      ghost var filled := Fill(cfg, working, specs, at);
      var i, full := 0, false;
      while i < |specs| && !full
        invariant 0 <= i <= |specs|
        invariant filled == if full then working else Fill(cfg, working, specs[i..], at)
        decreases |specs| - i, !full
      {
        assert specs[i..][0] == specs[i] && specs[i..][1..] == specs[i + 1..];
        var (name, payload) := specs[i];
        if !(name in working && working[name].origin != Generated) {
          working := working[name := GeneratedEntry(payload, at)];
          if |cfg.encode(working)| > cfg.maxPayload {
            working := working - {name};
            full := true;
          }
        }
        i := i + 1;
      }
      if !HasGenerated(working) {
        return NothingFits;
      }
      outcome := WriteBack(working, write);
    }

    method ClearDummyProfile(write: Write) returns (outcome: Outcome)
      modifies this
      ensures (files, outcome) == Step(cfg, old(files), Clear(write))
      ensures Ended(old(files), files, outcome, write) && (write.Took() ==> ClearedFrom(old(files), files))
    {
      ClearExactly(cfg, files, write);
      var kept := DropGenerated(files);
      outcome := WriteBack(kept, write);
    }

    /** The largest candidate in store order. */
    method ChooseLatest() returns (chosen: string)
      requires files != map[]
      ensures IsChosen(files, chosen)
    {
      var todo := Candidates(files);
      assert todo != {} by {
        var n :| n in files;
        assert n in files.Keys;
      }
      chosen :| chosen in todo;
      todo := todo - {chosen};
      ghost var seen := {chosen};
      StoreOrderIsTotal(files, chosen, chosen, chosen);
      hide StoreOrderLeq;
      while todo != {}
        invariant seen + todo == Candidates(files) && chosen in seen && Candidates(files) <= files.Keys
        invariant forall m | m in seen :: StoreOrderLeq(files, m, chosen)
        decreases |todo|
      {
        var n :| n in todo;
        todo := todo - {n};
        seen := seen + {n};
        StoreOrderIsTotal(files, n, chosen, n);
        if !StoreOrderLeq(files, n, chosen) {
          forall m | m in seen ensures StoreOrderLeq(files, m, n) {
            StoreOrderIsTotal(files, m, chosen, n);
          }
          chosen := n;
        }
      }
    }

    /** A named file exactly, or the file the output name hints at, or the latest. */
    method RetrieveFile(filename: Option<string>, outputName: Option<string>)
      returns (r: Result<(string, string), Outcome>)
      ensures files == map[] ==> r == Err(FileNotFound)
      ensures r.Ok? ==> r.value.0 in files && r.value.1 == files[r.value.0].data
      ensures files != map[] && filename.Some? && filename.value != "" ==>
        if filename.value in files then r.Ok? && r.value.0 == filename.value else r == Err(FileNotFound)
      ensures files != map[] && !(filename.Some? && filename.value != "") ==>
        && r.Ok?
        && if outputName.Some? && outputName.value in files then r.value.0 == outputName.value
           else IsChosen(files, r.value.0)
    {
      if files == map[] {
        return Err(FileNotFound);
      }
      var chosen := ChooseLatest();
      if filename.Some? && filename.value != "" {
        if filename.value !in files {
          return Err(FileNotFound);
        }
        chosen := filename.value;
      } else if outputName.Some? && outputName.value in files {
        chosen := outputName.value;
      }
      return Ok((chosen, files[chosen].data));
    }
  }
}
