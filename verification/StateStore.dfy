/**
 The typed state store of state_store.py: phase transitions, the record codec and
 the atomic write, with power loss possible after any of its steps.
 */
module StateStore {
  import opened Wrappers

  datatype Phase = Uninitialized | Initialized | Enrolled | Ready | RestrictedPending | Bricked | Corrupt

  function AllowedTransitions(p: Phase): set<Phase> {
    match p
    case Uninitialized => {Initialized, Corrupt}
    case Initialized => {Enrolled, Ready, RestrictedPending, Bricked, Corrupt}
    case Enrolled => {Ready, RestrictedPending, Bricked, Corrupt}
    case Ready => {RestrictedPending, Bricked, Corrupt}
    case RestrictedPending => {Ready, Bricked, Corrupt}
    case Bricked => {Initialized, Corrupt}
    case Corrupt => {}
  }

  function PhaseName(p: Phase): string {
    match p
    case Uninitialized => "uninitialized"
    case Initialized => "initialized"
    case Enrolled => "enrolled"
    case Ready => "ready"
    case RestrictedPending => "restricted_pending"
    case Bricked => "bricked"
    case Corrupt => "corrupt"
  }

  function PhaseNamed(s: string): Option<Phase> {
    if s == "uninitialized" then Some(Uninitialized)
    else if s == "initialized" then Some(Initialized)
    else if s == "enrolled" then Some(Enrolled)
    else if s == "ready" then Some(Ready)
    else if s == "restricted_pending" then Some(RestrictedPending)
    else if s == "bricked" then Some(Bricked)
    else if s == "corrupt" then Some(Corrupt)
    else None
  }

  datatype Json = JNum(n: int) | JText(s: string) | JObj(fields: map<string, Json>)

  const SCHEMA_VERSION: int := 1

  datatype StateRecord = StateRecord(category: string, phase: Phase, schemaVersion: int, updatedAt: int,
                                     attributes: map<string, Json>)

  function ToDict(r: StateRecord): Json {
    JObj(map["category" := JText(r.category), "phase" := JText(PhaseName(r.phase)),
             "schema_version" := JNum(r.schemaVersion),
             "updated_at" := JNum(r.updatedAt), "attributes" := JObj(r.attributes)])
  }

  /** None stands for the rejection of a record of the wrong shape, phase or schema. */
  function FromDict(data: Json): Option<StateRecord> {
    if !data.JObj? || !({"schema_version", "category", "phase"} <= data.fields.Keys) then None
    else
      var f := data.fields;
      var updated := if "updated_at" in f then f["updated_at"] else JNum(0);
      var attributes := if "attributes" in f then f["attributes"] else JObj(map[]);
      if !f["schema_version"].JNum? || !f["category"].JText? || !f["phase"].JText? then None
      else if !updated.JNum? || !attributes.JObj? then None
      else if PhaseNamed(f["phase"].s).None? || f["schema_version"].n != SCHEMA_VERSION then None
      else Some(StateRecord(f["category"].s, PhaseNamed(f["phase"].s).value, f["schema_version"].n, updated.n,
                            attributes.fields))
  }

  lemma FromDictInvertsToDict(r: StateRecord)
    ensures FromDict(ToDict(r)) == if r.schemaVersion == SCHEMA_VERSION then Some(r) else None
  {
    PhaseNameInverts(r.phase);
  }

  /**
   A document reads as a record exactly when it is what the record is written as, on
   every key it has; only the time and the attributes may be missing, and then read as empty.
   */
  lemma ReadsExactly(data: Json, r: StateRecord)
    ensures FromDict(data) == Some(r)
       <==> && data.JObj? && {"schema_version", "category", "phase"} <= data.fields.Keys && r.schemaVersion == 1
            && (forall k | k in data.fields && k in ToDict(r).fields :: data.fields[k] == ToDict(r).fields[k])
            && ("updated_at" !in data.fields ==> r.updatedAt == 0)
            && ("attributes" !in data.fields ==> r.attributes == map[])
  {
    PhaseNameInverts(r.phase);
    if data.JObj? && "phase" in data.fields && data.fields["phase"].JText? {
      PhaseOfName(data.fields["phase"].s);
    }
  }

  lemma PhaseOfName(s: string)
    ensures PhaseNamed(s).Some? ==> PhaseName(PhaseNamed(s).value) == s
  {
  }

  lemma PhaseNameInverts(p: Phase)
    ensures PhaseNamed(PhaseName(p)) == Some(p)
  {
  }

  // ---- files ----

  /** A file holds a whole JSON document or bytes that do not parse. */
  datatype File = Whole(json: Json) | Torn

  type Disk = map<string, File>

  function ReadRecord(disk: Disk, name: string): StateRecord {
    if name !in disk then StateRecord("local_state", Uninitialized, SCHEMA_VERSION, 0, map[])
    else
      var r := if disk[name].Whole? then FromDict(disk[name].json) else None;
      if r.Some? then r.value else StateRecord("local_state", Corrupt, SCHEMA_VERSION, 0, map[])
  }

  /** The disk before the write and after each step: temp made, temp complete, temp renamed over the target. */
  function WriteSteps(disk: Disk, name: string, temp: string, json: Json): seq<Disk> {
    [disk, disk[temp := Torn], disk[temp := Whole(json)], (disk - {temp})[name := Whole(json)]]
  }

  class LocalStateStore {
    var disk: Disk

    constructor (disk: Disk)
      ensures this.disk == disk
    {
      this.disk := disk;
    }

    /** `power` is the number of steps done before the power fails; 3 or more completes the write. */
    method WriteJsonAtomic(name: string, temp: string, json: Json, power: nat)
      modifies this
      ensures disk == WriteSteps(old(disk), name, temp, json)[if power < 3 then power else 3]
    {
      if power == 0 {
        return;
      }
      disk := disk[temp := Torn];
      if power == 1 {
        return;
      }
      ghost var before := disk;
      disk := disk[temp := Whole(json)];
      if power == 2 {
        return;
      }
      var moved := disk[temp];
      disk := (disk - {temp})[name := moved];
      assert before - {temp} == old(disk) - {temp};
    }

    /** Rewriting a record in its own phase is an update; any other change must be in the table. */
    method WriteRecord(r: StateRecord, name: string, temp: string, now: int, power: nat) returns (rejected: bool)
      modifies this
      ensures rejected == !MayWrite(old(disk), r, name)
      ensures disk == if rejected then old(disk)
                      else WriteSteps(old(disk), name, temp, ToDict(Stamped(r, now)))[if power < 3 then power else 3]
    {
      var current := ReadRecord(disk, name);
      if r.phase != current.phase && r.phase !in AllowedTransitions(current.phase) {
        return true;
      }
      WriteJsonAtomic(name, temp, ToDict(Stamped(r, now)), power);
      return false;
    }
  }

  predicate MayWrite(disk: Disk, r: StateRecord, name: string) {
    var current := ReadRecord(disk, name).phase;
    r.phase == current || r.phase in AllowedTransitions(current)
  }

  function Rank(p: Phase): nat {
    match p
    case Uninitialized => 0
    case Initialized => 1
    case Enrolled => 2
    case Ready => 3
    case RestrictedPending => 4
    case Bricked => 5
    case Corrupt => 6
  }

  /**
   Which phases a write may leave: the same, or a later one, where the first step is to be
   initialized. The only ways back are from a pending restriction and from bricked.
   */
  lemma MayWriteExactly(disk: Disk, r: StateRecord, name: string)
    ensures var p := ReadRecord(disk, name).phase;
            MayWrite(disk, r, name)
            <==> || (Rank(p) <= Rank(r.phase) && (p == Uninitialized ==> r.phase in {p, Initialized, Corrupt}))
                 || (p == RestrictedPending && r.phase == Ready) || (p == Bricked && r.phase == Initialized)
  {
    hide ReadRecord;
  }

  /** A finished write reads back as the record it was given, under the current schema and the write's time. */
  lemma WrittenReads(disk: Disk, name: string, temp: string, r: StateRecord, now: int)
    requires temp != name
    ensures ReadRecord(WriteSteps(disk, name, temp, ToDict(Stamped(r, now)))[3], name)
         == StateRecord(r.category, r.phase, 1, now, r.attributes)
  {
    hide FromDict, ToDict;
    FromDictInvertsToDict(Stamped(r, now));
  }

  function Stamped(r: StateRecord, now: int): StateRecord {
    r.(schemaVersion := SCHEMA_VERSION, updatedAt := now)
  }

  /** A reader after power loss at any step sees the old record or the new one, and no other file changes. */
  lemma CrashReadsOldOrNew(disk: Disk, name: string, temp: string, r: StateRecord, step: nat, other: string)
    requires step < 4 && temp != name && temp !in disk && r.schemaVersion == SCHEMA_VERSION
    ensures var after := WriteSteps(disk, name, temp, ToDict(r))[step];
            && ReadRecord(after, name) == (if step == 3 then r else ReadRecord(disk, name))
            && (other != name && other != temp ==> ReadRecord(after, other) == ReadRecord(disk, other))
  {
    hide FromDict, ToDict;
    FromDictInvertsToDict(r);
  }
}
