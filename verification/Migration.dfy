/**
 Loading and saving the registry files (vessel_service.py, vessel_registry_seal.py),
 with power loss possible after any file step of a save. The sidecar cipher is
 ideal: it opens under the key that sealed it and no other.
 */
module Migration {
  import opened Wrappers
  import opened Registry

  /** The cleartext index; bytes that do not parse load as no records. */
  datatype IndexFile = NoIndex | Garbage | Index(records: seq<Raw>)

  datatype KeyFile = NoKey | ShortKey | Key(k: string)

  /** The sealed sidecar; a truncated one of up to 12 bytes is refused before the key is looked at. */
  datatype Sidecar = NoSidecar | Truncated(tiny: bool) | Sealed(key: string, detail: map<string, Dict>)

  datatype Disk = Disk(index: IndexFile, key: KeyFile, sidecar: Sidecar)

  /** Looking at the sidecar creates a missing or short key. */
  function KeyAfterRead(d: Disk, newKey: string): KeyFile {
    match d.sidecar
    case NoSidecar => d.key
    case Truncated(true) => d.key
    case _ => if d.key.Key? then d.key else Key(newKey)
  }

  function SealedDetail(d: Disk): map<string, Dict> {
    if d.sidecar.Sealed? && d.key == Key(d.sidecar.key) then d.sidecar.detail else map[]
  }

  predicate NeedsMigration(d: Disk) {
    d.index.Index? && exists raw :: raw in d.index.records && CarriesSealedFields(raw)
  }

  function Loaded(env: Env, now: string, d: Disk): seq<Dict> {
    if d.index.Index? then LoadRecords(env, now, d.index.records, SealedDetail(d)) else []
  }

  /** The key a save seals under. */
  function SavingKey(d: Disk, newKey: string): string {
    if d.key.Key? then d.key.k else newKey
  }

  /**
   The disk before a save and after each of its file steps: key truncated, key
   written, sidecar truncated, sidecar partly written, sidecar complete, old index
   shredded, index truncated, index written. Steps that do not apply change nothing;
   an empty registry discards the sidecar instead of writing one.
   */
  function SaveSteps(env: Env, d: Disk, records: seq<Dict>, newKey: string, shred: bool): (r: seq<Disk>)
    ensures |r| == 9
  {
    var keyed := d.(key := Key(SavingKey(d, newKey)));
    var sealed := if records == [] then d.(sidecar := NoSidecar)
                  else keyed.(sidecar := Sealed(SavingKey(d, newKey), SealedRecords(env, records)));
    var shredded := if shred && sealed.index != NoIndex then sealed.(index := Garbage) else sealed;
    (if records == [] then [d, d, d, d, d]
     else [d, if d.key.Key? then d else d.(key := ShortKey), keyed,
           keyed.(sidecar := Truncated(true)), keyed.(sidecar := Truncated(false))])
    + [sealed, shredded, shredded.(index := Garbage), shredded.(index := Index(PublicRecords(env, records)))]
  }

  /**
   The disk a start-up leaves. Reading the sidecar may create a key, with `cut` a power
   failure between creating the key file and filling it; a cleartext registry is then
   saved, with the shred, for `power` file steps.
   */
  function AfterLoad(env: Env, now: string, d: Disk, newKey: string, cut: bool, saveKey: string, power: nat): Disk {
    var read := KeyAfterRead(d, newKey);
    if !d.index.Index? then d
    else if cut && read != d.key then d.(key := ShortKey)
    else if cut || !NeedsMigration(d) then d.(key := read)
    else SaveSteps(env, d.(key := read), Loaded(env, now, d), saveKey, true)[if power < 8 then power else 8]
  }

  class RegistryFiles {
    const env: Env
    var disk: Disk

    constructor (env: Env, disk: Disk)
      ensures this.env == env && this.disk == disk
    {
      this.env, this.disk := env, disk;
    }

    /** Splits every record into its halves. */
    method SplitAll(records: seq<Dict>) returns (public: seq<Raw>, sealed: map<string, Dict>)
      ensures public == PublicRecords(env, records) && sealed == SealedRecords(env, records)
    {
      hide SplitPublic, SplitSealed, PathOf;
      public, sealed := [], map[];
      for i := 0 to |records|
        invariant PublicRecords(env, records) == public + PublicRecords(env, records[i..])
        invariant sealed == SealedRecords(env, records[..i])
      {
        assert records[i..][0] == records[i] && records[i..][1..] == records[i + 1..];
        assert records[..i + 1][..i] == records[..i];
        var p, s := SplitRecord(env, records[i]);
        public := public + [Rec(p)];
        sealed := sealed[PathOf(env, records[i]) := s];
      }
      assert records[..|records|] == records;
    }

    /** Sidecar first, then the shred, then the reduced index; `power` is the number of steps before power fails. */
    method Save(records: seq<Dict>, newKey: string, shred: bool, power: nat)
      modifies this
      ensures disk == SaveSteps(env, old(disk), records, newKey, shred)[if power < 8 then power else 8]
    {
      hide PublicRecords, SealedRecords;
      ghost var steps := SaveSteps(env, disk, records, newKey, shred);
      var public, sealed := SplitAll(records);
      if records == [] {
        if power < 5 { return; }
        disk := disk.(sidecar := NoSidecar);
      } else {
        if power == 0 { return; }
        var key := SavingKey(disk, newKey);
        if !disk.key.Key? { disk := disk.(key := ShortKey); }
        if power == 1 { return; }
        disk := disk.(key := Key(key));
        if power == 2 { return; }
        disk := disk.(sidecar := Truncated(true));
        if power == 3 { return; }
        disk := disk.(sidecar := Truncated(false));
        if power == 4 { return; }
        disk := disk.(sidecar := Sealed(key, sealed));
      }
      assert disk == steps[5];
      if power == 5 { return; }
      if shred && disk.index != NoIndex { disk := disk.(index := Garbage); }
      if power == 6 { return; }
      disk := disk.(index := Garbage);
      if power == 7 { return; }
      disk := disk.(index := Index(public));
    }

    /**
     Merges and normalizes what the files hold, and migrates a cleartext registry;
     None when power fails in the read.
     */
    method Load(now: string, newKey: string, cut: bool, saveKey: string, power: nat)
      returns (records: Option<seq<Dict>>)
      modifies this
      ensures disk == AfterLoad(env, now, old(disk), newKey, cut, saveKey, power)
      ensures records == if cut && old(disk).index.Index? then None else Some(Loaded(env, now, old(disk)))
    {
      hide SaveSteps, NeedsMigration;
      if !disk.index.Index? {
        return Some([]);
      }
      var migrate, detail := NeedsMigration(disk), SealedDetail(disk);
      var key := KeyAfterRead(disk, newKey);
      if cut {
        disk := disk.(key := if key == disk.key then key else ShortKey);
        return None;
      }
      var merged := MergeAll(now, disk.index.records, detail);
      disk := disk.(key := key);
      if migrate {
        Save(merged, saveKey, true, power);
      }
      return Some(merged);
    }

    /** Lays each record's detail over it and normalizes the result. */
    method MergeAll(now: string, raw: seq<Raw>, detail: map<string, Dict>) returns (records: seq<Dict>)
      ensures records == LoadRecords(env, now, raw, detail)
    {
      hide NormalizeRecord, Merged;
      records := [];
      for i := 0 to |raw|
        invariant LoadRecords(env, now, raw, detail) == records + LoadRecords(env, now, raw[i..], detail)
      {
        assert raw[i..][0] == raw[i] && raw[i..][1..] == raw[i + 1..];
        records := records + [NormalizeRecord(env, now, Merged(env, raw[i], detail))];
      }
    }
  }

  // ---- crash safety ----

  /** A complete copy of every record's sealed half, readable with the key on disk. */
  predicate SealedCopy(env: Env, d: Disk, records: seq<Dict>) {
    SealedDetail(d) == SealedRecords(env, records)
  }

  /** The sidecar opens with the key on disk. */
  predicate Opens(d: Disk) {
    d.sidecar.Sealed? && d.key == Key(d.sidecar.key)
  }

  /**
   At `s`, in the middle of a save of `records` over `d`, some copy of the Face detail
   can still be read: the old one in the cleartext index that is being migrated, the
   old one in the sidecar, or the new one.
   */
  predicate ReadableCopy(env: Env, d: Disk, s: Disk, records: seq<Dict>) {
    (NeedsMigration(d) && s.index == d.index) || (Opens(s) && s.sidecar == d.sidecar) || SealedCopy(env, s, records)
  }

  /**
   A readable copy exists exactly when the registry saved is empty, or the sidecar is
   complete, or the index still carries the detail, or, before the sidecar is
   truncated, the key on disk opens the old one. For every save that is not a migration
   this leaves steps 3 and 4, where there is none.
   */
  lemma ReadableCopyExactly(env: Env, d: Disk, records: seq<Dict>, newKey: string, shred: bool, step: nat)
    requires step < 9
    ensures ReadableCopy(env, d, SaveSteps(env, d, records, newKey, shred)[step], records)
       <==> records == [] || step >= 5 || NeedsMigration(d)
            || (d.sidecar.Sealed? && step < 2 && d.key == Key(d.sidecar.key))
            || (d.sidecar.Sealed? && step == 2 && SavingKey(d, newKey) == d.sidecar.key)
  {
    hide NeedsMigration, PublicRecords;
    SealedNonempty(env, records);
  }

  lemma SealedNonempty(env: Env, records: seq<Dict>)
    ensures SealedRecords(env, records) == map[] <==> records == []
  {
    if records != [] {
      assert PathOf(env, records[|records| - 1]) in SealedRecords(env, records);
    }
  }

  /** Everything the files said before is still readable, or everything being saved already is. */
  predicate OldOrNew(env: Env, d: Disk, s: Disk, records: seq<Dict>) {
    (s.index == d.index && forall path | path in SealedDetail(d) ::
                             path in SealedDetail(s) && SealedDetail(s)[path] == SealedDetail(d)[path])
    || SealedCopy(env, s, records)
  }

  /** What is readable after each step of a save. */
  lemma DetailAtStep(env: Env, d: Disk, records: seq<Dict>, newKey: string, shred: bool, step: nat)
    requires step < 9
    ensures var s := SaveSteps(env, d, records, newKey, shred)[step];
            && (step <= 4 ==> s.index == d.index)
            && (records == [] && step <= 4 ==> s == d)
            && (step <= 2 ==> SealedDetail(d) == map[] || SealedDetail(s) == SealedDetail(d))
            && (records != [] && (step == 3 || step == 4) ==> SealedDetail(s) == map[])
            && (step >= 5 ==> SealedDetail(s) == SealedRecords(env, records))
  {
    hide SealedRecords, PublicRecords;
    SealedNonempty(env, records);
  }

  /** What the sidecar held is lost to a power failure exactly while its successor is being written. */
  lemma SealedDetailLostExactly(env: Env, d: Disk, records: seq<Dict>, newKey: string, shred: bool, step: nat)
    requires step < 9
    ensures !OldOrNew(env, d, SaveSteps(env, d, records, newKey, shred)[step], records)
       <==> records != [] && SealedDetail(d) != map[] && (step == 3 || step == 4)
  {
    hide SaveSteps, SealedDetail, SealedRecords;
    DetailAtStep(env, d, records, newKey, shred, step);
    SealedNonempty(env, records);
    if SealedDetail(d) != map[] {
      var path :| path in SealedDetail(d);
    }
  }

  /**
   The program says the detail survives every crash. It does not: an ordinary save over
   a finished one leaves, for two of its steps, an index without detail and a sidecar
   nothing can read, for any registries saved before and now.
   */
  lemma OrdinarySaveLosesDetail(env: Env, d: Disk, saved: seq<Dict>, records: seq<Dict>,
                                firstKey: string, newKey: string, shred: bool, step: nat)
    requires saved != [] && records != [] && (step == 3 || step == 4)
    ensures var before := SaveSteps(env, d, saved, firstKey, shred)[8];
            var s := SaveSteps(env, before, records, newKey, false)[step];
            && SealedDetail(before) == SealedRecords(env, saved) != map[]
            && s.index == Index(PublicRecords(env, saved)) && !NeedsMigration(s) && SealedDetail(s) == map[]
            && !ReadableCopy(env, before, s, records)
  {
    hide CarriesSealedFields, PublicRecords, SealedRecords, ReadableCopy;
    SealedNonempty(env, saved);
    PublicRecordsClean(env, saved);
    var before := SaveSteps(env, d, saved, firstKey, shred)[8];
    ReadableCopyExactly(env, before, records, newKey, false, step);
  }

  /**
   One migration, whatever the sidecar, as long as nothing in it can be read: while the
   index is intact the next start loads the very same records from it and migrates
   again, until the readable sidecar holds the complete detail.
   */
  lemma MigrationCrashSafe(env: Env, now: string, d: Disk, newKey: string, step: nat)
    requires NeedsMigration(d) && SealedDetail(d) == map[] && (d.sidecar.Sealed? ==> d.key.Key?) && step < 9
    ensures var records := Loaded(env, now, d);
            var s := SaveSteps(env, d, records, newKey, true)[step];
            && (step <= 4 ==> s.index == d.index && Loaded(env, now, s) == records && NeedsMigration(s))
            && (step >= 5 ==> SealedCopy(env, s, records))
  {
    hide LoadRecords, CarriesSealedFields, PublicRecords, SealedRecords;
    LoadedNonempty(env, now, d.index.records, map[]);
  }

  lemma LoadedNonempty(env: Env, now: string, raw: seq<Raw>, sealed: map<string, Dict>)
    ensures raw != [] ==> LoadRecords(env, now, raw, sealed) != []
  {
  }

  /** The sealed copy keeps each Face's detail under its path and id. */
  lemma SealedCopyHoldsFace(env: Env, d: Disk, records: seq<Dict>, i: nat, j: nat)
    requires SealedCopy(env, d, records) && Splittable(env, records) && i < |records| && j < |FacesOf(env, records[i])|
    ensures var path := PathOf(env, records[i]);
            && path in SealedDetail(d)
            && var faces := Get(SealedDetail(d)[path], "faces", Null);
            faces.D? && Get(faces.fields, FaceId(env, FacesOf(env, records[i])[j]), Null)
                == D(SealedFace(FacesOf(env, records[i])[j]))
  {
    hide SealedFace, SealedFaces;
    SealedRecordsFinds(env, records, i);
    assert records[i] in records;
    SealedFacesFinds(env, FacesOf(env, records[i]), j);
  }

  lemma {:induction false} PublicRecordsClean(env: Env, records: seq<Dict>)
    ensures forall raw | raw in PublicRecords(env, records) :: !CarriesSealedFields(raw)
  {
    if records != [] {
      PublicRecordsClean(env, records[1..]);
      PublicCarriesNothingSealed(env, records[0]);
    }
  }

  /** A finished save is never migrated again, whatever was saved. */
  lemma FinishedSaveStays(env: Env, d: Disk, records: seq<Dict>, newKey: string, shred: bool)
    ensures !NeedsMigration(SaveSteps(env, d, records, newKey, shred)[8])
  {
    hide CarriesSealedFields, PublicRecords, SealedRecords;
    PublicRecordsClean(env, records);
  }

  /** A finished save loads back the records it was given, normalized. */
  lemma FinishedSaveLoads(env: Env, now: string, d: Disk, records: seq<Dict>, newKey: string, shred: bool)
    requires Splittable(env, records)
    ensures Loaded(env, now, SaveSteps(env, d, records, newKey, shred)[8]) == NormalizeAll(env, now, records)
  {
    hide LoadRecords, NormalizeAll;
    SaveLoadRoundTrip(env, now, records);
  }

  /**
   The program says registering a path again restores its record once the index is
   lost. It does not: after any registry's save was cut off with the index truncated,
   nothing is loaded, and registering a path then saves that one record over the
   sidecar. What the sidecar held under a path survives exactly when it is that path
   and was what a fresh registration holds.
   */
  lemma RegisteringAgainKeepsExactly(env: Env, now: string, d: Disk, saved: seq<Dict>, key: string, shred: bool,
                                     path: string, newKey: string, other: string)
    requires saved != []
    ensures var lost := SaveSteps(env, d, saved, key, shred)[7];
            var registered := NormalizeRecord(env, now, Path(path));
            var after := SaveSteps(env, lost, Loaded(env, now, lost) + [registered], newKey, false)[8];
            && SealedDetail(lost) == SealedRecords(env, saved) && Loaded(env, now, lost) == []
            && SealedDetail(after) == map[path := SplitSealed(env, registered)]
            && (other in SealedDetail(lost) ==>
                  (other in SealedDetail(after) && SealedDetail(after)[other] == SealedDetail(lost)[other]
                   <==> other == path && SealedDetail(lost)[other] == SplitSealed(env, registered)))
  {
    hide PublicRecords, SplitSealed, NormalizeRecord;
    var registered := NormalizeRecord(env, now, Path(path));
    RegisteredPath(env, now, path);
    assert [] + [registered] == [registered] && [registered][..0] == [];
    assert SealedRecords(env, [registered]) == map[path := SplitSealed(env, registered)];
  }

  lemma RegisteredPath(env: Env, now: string, path: string)
    ensures PathOf(env, NormalizeRecord(env, now, Path(path))) == path
  {
    hide AsJson, DefaultFace;
  }

  /** With the sidecar unreadable, a saved registry still lists every path and face. */
  lemma {:induction false} ListsWithoutSidecar(env: Env, records: seq<Dict>)
    ensures var public := PublicRecords(env, records);
            |public| == |records|
            && forall i | 0 <= i < |records| ::
                 && public[i].Rec? && Listing(env, public[i].record) == Listing(env, records[i])
                 && Merged(env, public[i], map[]) == public[i]
  {
    hide Listing, SplitPublic, Merged;
    if records != [] {
      ListsWithoutSidecar(env, records[1..]);
      UnreadableSidecarStillLists(env, records[0]);
      var public := PublicRecords(env, records);
      assert public[0] == Rec(SplitPublic(env, records[0])) && public[1..] == PublicRecords(env, records[1..]);
      forall i | 0 <= i < |records|
        ensures public[i].Rec? && Listing(env, public[i].record) == Listing(env, records[i])
                && Merged(env, public[i], map[]) == public[i]
      {
        if i > 0 {
          assert public[i] == public[1..][i - 1] && records[i] == records[1..][i - 1];
        }
      }
    }
  }
}
