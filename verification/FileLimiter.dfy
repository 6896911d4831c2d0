/** The limiter whose table survives restarts in the state store (attempt_limiter.py). */
module FileLimiter {
  import opened Wrappers
  import opened Limiter
  import opened StateStore

  const ATTEMPT_STATE_NAME := "access_attempts.json"
  const STATE_CATEGORY := "access_limiter"

  function EncodeState(s: AttemptState): Json {
    JObj(map["failures" := JNum(s.failures), "locked_until" := JNum(s.lockedUntil)])
  }

  function EncodeTable(t: Table): map<string, Json> {
    map scope | scope in t :: EncodeState(t[scope])
  }

  /** `AttemptState(**val)`; None is the error on keys it does not have or values that are no numbers. */
  function DecodeState(fields: map<string, Json>): Option<AttemptState> {
    if !(fields.Keys <= {"failures", "locked_until"}) then None
    else
      var failures := if "failures" in fields then fields["failures"] else JNum(0);
      var lockedUntil := if "locked_until" in fields then fields["locked_until"] else JNum(0);
      if failures.JNum? && lockedUntil.JNum? then Some(AttemptState(failures.n, lockedUntil.n)) else None
  }

  /** The entries of the file that are objects; None when one of them does not decode. */
  function DecodeEntries(data: map<string, Json>): Option<Table> {
    var entries := map scope | scope in data && data[scope].JObj? :: DecodeState(data[scope].fields);
    if exists scope :: scope in entries && entries[scope].None? then None
    else Some(map scope | scope in entries && entries[scope].Some? :: entries[scope].value)
  }

  /** The table a start-up loads; None is the error raised on an entry that does not decode. */
  function LoadTable(disk: Disk): Option<Table> {
    var r := ReadRecord(disk, ATTEMPT_STATE_NAME);
    if r.phase == Corrupt || "attempts" !in r.attributes then Some(map[])
    else if !r.attributes["attempts"].JObj? then None
    else DecodeEntries(r.attributes["attempts"].fields)
  }

  /**
   An entry decodes exactly when it is what some state is written as on every key it has,
   with a missing number read as zero and no key of its own.
   */
  lemma DecodesExactly(fields: map<string, Json>, s: AttemptState)
    ensures DecodeState(fields) == Some(s)
       <==> && (forall k <- fields :: k in EncodeState(s).fields && fields[k] == EncodeState(s).fields[k])
            && ("failures" !in fields ==> s.failures == 0) && ("locked_until" !in fields ==> s.lockedUntil == 0)
  {
    var written := EncodeState(s).fields;
    if fields.Keys <= {"failures", "locked_until"} {
      assert forall k <- fields :: k == "failures" || k == "locked_until";
    }
    if forall k <- fields :: k in written && fields[k] == written[k] {
      assert "failures" in fields ==> fields["failures"] == JNum(s.failures);
      assert "locked_until" in fields ==> fields["locked_until"] == JNum(s.lockedUntil);
    }
  }

  /** A start-up loads the entries that are objects, under their scopes, or fails on one that does not decode. */
  lemma EntriesExactly(data: map<string, Json>)
    ensures DecodeEntries(data).None?
       <==> exists scope :: scope in data && data[scope].JObj? && DecodeState(data[scope].fields).None?
    ensures DecodeEntries(data).Some? ==>
              var t := DecodeEntries(data).value;
              && (forall scope :: scope in t <==> scope in data && data[scope].JObj?)
              && (forall scope | scope in t :: DecodeState(data[scope].fields) == Some(t[scope]))
  {
    hide DecodeState;
    var entries := map scope | scope in data && data[scope].JObj? :: DecodeState(data[scope].fields);
    assert forall scope :: scope in entries <==> scope in data && data[scope].JObj?;
    if scope :| scope in data && data[scope].JObj? && DecodeState(data[scope].fields).None? {
      assert scope in entries && entries[scope].None?;
    }
  }

  function SavedRecord(t: Table): StateRecord {
    StateRecord(STATE_CATEGORY, Initialized, SCHEMA_VERSION, 0, map["attempts" := JObj(EncodeTable(t))])
  }

  /** Whether the operation ends in a save: a served lockout, a failure or a success. */
  predicate Saves(t: Table, op: Op) {
    match op
    case Check(scope, at) => StateOf(t, scope).lockedUntil != 0 && StateOf(t, scope).lockedUntil <= at
    case Fail(_, _) => true
    case Succeed(_, _) => true
  }

  class FileAttemptLimiter {
    const cfg: Config
    const store: LocalStateStore
    var states: Table

    constructor (cfg: Config, store: LocalStateStore)
      requires LoadTable(store.disk).Some?
      ensures this.cfg == cfg && this.store == store && states == LoadTable(store.disk).value
    {
      this.cfg, this.store := cfg, store;
      states := LoadTable(store.disk).value;
    }

    method Save(temp: string, now: int, power: nat) returns (rejected: bool)
      modifies store
      ensures rejected == !MayWrite(old(store.disk), SavedRecord(states), ATTEMPT_STATE_NAME)
      ensures store.disk == if rejected then old(store.disk)
                            else WriteSteps(old(store.disk), ATTEMPT_STATE_NAME, temp,
                                            ToDict(Stamped(SavedRecord(states), now)))
                                 [if power < 3 then power else 3]
    {
      rejected := store.WriteRecord(SavedRecord(states), ATTEMPT_STATE_NAME, temp, now, power);
    }

    /** The in-memory step, then the save it calls for. */
    method Perform(op: Op, temp: string, power: nat) returns (decision: Decision, rejected: bool)
      modifies this, store
      ensures (states, decision) == Step(cfg, old(states), op)
      ensures rejected == (Saves(old(states), op)
                           && !MayWrite(old(store.disk), SavedRecord(states), ATTEMPT_STATE_NAME))
      ensures store.disk == if !Saves(old(states), op) || rejected then old(store.disk)
              else SavedDisk(old(store.disk), states, op, temp, power)
    {
      rejected := false;
      ghost var before := states;
      match op
      case Check(scope, at) =>
        var s := StateOf(states, scope);
        if s.lockedUntil > at {
          return Decision(false, s.lockedUntil - at), false;
        }
        if s.lockedUntil != 0 {
          states := states - {scope};
          rejected := Save(temp, at, power);
        }
        decision := Decision(true, 0);
      case Fail(scope, at) =>
        states := FailStep(cfg, states, scope, at);
        rejected := Save(temp, at, power);
        decision := Decision(true, 0);
      case Succeed(scope, at) =>
        states := states - {scope};
        rejected := Save(temp, at, power);
        decision := Decision(true, 0);
    }
  }

  function SavedDisk(disk: Disk, t: Table, op: Op, temp: string, power: nat): Disk {
    WriteSteps(disk, ATTEMPT_STATE_NAME, temp, ToDict(Stamped(SavedRecord(t), op.at)))[if power < 3 then power else 3]
  }

  // ---- runs ----

  /** An operation and the temp name its save uses, cut off by a power failure or not, and whether a restart follows. */
  datatype Turn = Turn(op: Op, temp: string, power: nat, restart: bool)

  datatype Persisted = Persisted(states: Table, disk: Disk)

  /** Temp names are new; losing power ends the process. */
  predicate StepOk(p: Persisted, s: Turn) {
    s.temp != ATTEMPT_STATE_NAME && s.temp !in p.disk && (s.power < 3 ==> s.restart)
  }

  /** What `Perform`, and a restart after it, leave behind. */
  function PersistedStep(cfg: Config, p: Persisted, s: Turn): (Option<Persisted>, Decision) {
    var (states, decision) := Step(cfg, p.states, s.op);
    var save := Saves(p.states, s.op);
    if save && !MayWrite(p.disk, SavedRecord(states), ATTEMPT_STATE_NAME) then (None, decision)
    else
      var disk := if save then SavedDisk(p.disk, states, s.op, s.temp, s.power) else p.disk;
      if !s.restart then (Some(Persisted(states, disk)), decision)
      else if LoadTable(disk).None? then (None, decision)
      else (Some(Persisted(LoadTable(disk).value, disk)), decision)
  }

  /** The table in memory is the one a start-up would load. */
  predicate Started(p: Persisted) {
    LoadTable(p.disk) == Some(p.states)
  }

  /** A limiter record may be written over the file, missing or not. */
  predicate Writable(disk: Disk) {
    ReadRecord(disk, ATTEMPT_STATE_NAME).phase in {Uninitialized, Initialized, Bricked}
  }

  predicate InStep(p: Persisted) {
    Started(p) && Writable(p.disk)
  }

  /** The phase table refuses a limiter record over a file of the four other phases, and over no other. */
  lemma WritableExactly(disk: Disk, t: Table)
    ensures MayWrite(disk, SavedRecord(t), ATTEMPT_STATE_NAME) <==> Writable(disk)
    ensures !Writable(disk)
       <==> ReadRecord(disk, ATTEMPT_STATE_NAME).phase in {Enrolled, Ready, RestrictedPending, Corrupt}
  {
    hide ReadRecord;
  }

  lemma LoadInvertsSave(disk: Disk, t: Table, at: int)
    requires ReadRecord(disk, ATTEMPT_STATE_NAME) == Stamped(SavedRecord(t), at)
    ensures LoadTable(disk) == Some(t)
  {
    hide ReadRecord, DecodeEntries, EncodeTable;
    EntriesLoad(t);
    assert ReadRecord(disk, ATTEMPT_STATE_NAME).attributes["attempts"] == JObj(EncodeTable(t));
  }

  lemma EntriesLoad(t: Table)
    ensures DecodeEntries(EncodeTable(t)) == Some(t)
  {
    var data := EncodeTable(t);
    forall scope | scope in t ensures DecodeState(data[scope].fields) == Some(t[scope]) {
      DecodeInvertsEncode(t[scope]);
    }
    hide DecodeState;
    var entries := map scope | scope in data && data[scope].JObj? :: DecodeState(data[scope].fields);
    assert forall scope :: scope in entries <==> scope in t;
    assert (map scope | scope in entries && entries[scope].Some? :: entries[scope].value) == t;
  }

  lemma DecodeInvertsEncode(s: AttemptState)
    ensures DecodeState(EncodeState(s).fields) == Some(s)
  {
  }

  /**
   One operation, possibly cut off mid-save and possibly followed by a restart: no
   save is rejected, the decision is the in-memory limiter's, and the table carried
   on is the in-memory limiter's, before or after the operation. It is the one
   before only when power failed short of the rename.
   */
  lemma PersistedStepRefines(cfg: Config, p: Persisted, s: Turn)
    requires InStep(p) && StepOk(p, s)
    ensures var r := PersistedStep(cfg, p, s);
            && r.0.Some? && InStep(r.0.value)
            && r.1 == Step(cfg, p.states, s.op).1
            && r.0.value.states == if Saves(p.states, s.op) && s.power < 3 then p.states
               else Step(cfg, p.states, s.op).0
  {
    hide ReadRecord, ToDict, LoadTable, MayWrite, Writable, SavedRecord;
    var states := Step(cfg, p.states, s.op).0;
    if Saves(p.states, s.op) {
      var r := Stamped(SavedRecord(states), s.op.at);
      var step := if s.power < 3 then s.power else 3;
      var disk := SavedDisk(p.disk, states, s.op, s.temp, s.power);
      WritableExactly(p.disk, states);
      CrashReadsOldOrNew(p.disk, ATTEMPT_STATE_NAME, s.temp, r, step, "");
      if step == 3 {
        SavedIsInStep(disk, states, s.op.at);
      } else {
        SameRecordSameStart(p.disk, disk);
      }
    } else {
      QuietCheck(cfg, p.states, s.op);
    }
  }

  lemma SavedIsInStep(disk: Disk, t: Table, at: int)
    requires ReadRecord(disk, ATTEMPT_STATE_NAME) == Stamped(SavedRecord(t), at)
    ensures InStep(Persisted(t, disk))
  {
    hide LoadTable, ReadRecord;
    LoadInvertsSave(disk, t, at);
  }

  lemma SameRecordSameStart(a: Disk, b: Disk)
    requires ReadRecord(a, ATTEMPT_STATE_NAME) == ReadRecord(b, ATTEMPT_STATE_NAME)
    ensures LoadTable(a) == LoadTable(b) && Writable(a) == Writable(b)
  {
    hide ReadRecord;
  }

  /** An operation that does not save changes nothing in memory. */
  lemma QuietCheck(cfg: Config, t: Table, op: Op)
    requires !Saves(t, op)
    ensures Step(cfg, t, op).0 == t
  {
  }

  /** An operation whose save lost power before the rename. */
  predicate Lost(t: Table, s: Turn) {
    Saves(t, s.op) && s.power < 3
  }

  /** One in-memory limiter that never restarts and forgets only the lost operations. */
  function MemoryRun(cfg: Config, t: Table, steps: seq<Turn>): (Table, seq<Decision>)
    decreases |steps|
  {
    if steps == [] then (t, [])
    else
      var (next, decision) := Step(cfg, t, steps[0].op);
      var (end, rest) := MemoryRun(cfg, if Lost(t, steps[0]) then t else next, steps[1..]);
      (end, [decision] + rest)
  }

  ghost predicate RunOk(cfg: Config, p: Persisted, steps: seq<Turn>)
    decreases |steps|
  {
    steps == []
    || (StepOk(p, steps[0])
        && (PersistedStep(cfg, p, steps[0]).0.Some?
            ==> RunOk(cfg, PersistedStep(cfg, p, steps[0]).0.value, steps[1..])))
  }

  function PersistedRun(cfg: Config, p: Persisted, steps: seq<Turn>): (Option<Persisted>, seq<Decision>)
    decreases |steps|
  {
    if steps == [] then (Some(p), [])
    else
      var (next, decision) := PersistedStep(cfg, p, steps[0]);
      if next.None? then (None, [decision])
      else
        var (end, rest) := PersistedRun(cfg, next.value, steps[1..]);
        (end, [decision] + rest)
  }

  /**
   Over any run of operations, restarts and power failures, no save is rejected and
   the file limiter decides what the one long-lived in-memory limiter decides.
   */
  lemma {:induction false} PersistedRunRefines(cfg: Config, p: Persisted, steps: seq<Turn>)
    requires InStep(p) && RunOk(cfg, p, steps)
    ensures var r, m := PersistedRun(cfg, p, steps), MemoryRun(cfg, p.states, steps);
            r.0.Some? && InStep(r.0.value) && r.0.value.states == m.0 && r.1 == m.1
    decreases |steps|
  {
    if steps != [] {
      hide PersistedStep, InStep, StepOk, Step;
      PersistedStepRefines(cfg, p, steps[0]);
      PersistedRunRefines(cfg, PersistedStep(cfg, p, steps[0]).0.value, steps[1..]);
    }
  }

  /** The starting point of every device: no file, empty table. */
  lemma StartsInStep(disk: Disk)
    requires ATTEMPT_STATE_NAME !in disk
    ensures LoadTable(disk) == Some(map[]) && InStep(Persisted(map[], disk))
  {
  }

  // ---- the lockout bound, across restarts ----

  /** The operations that took hold: all but those whose save lost power. */
  function Took(cfg: Config, t: Table, steps: seq<Turn>): seq<Op>
    decreases |steps|
  {
    if steps == [] then []
    else if Lost(t, steps[0]) then Took(cfg, t, steps[1..])
    else [steps[0].op] + Took(cfg, Step(cfg, t, steps[0].op).0, steps[1..])
  }

  /**
   Callers use the limiter one after another: the clock never steps back, and every
   failure follows a check of its scope that was allowed, in the same process.
   `cleared` holds the scopes so checked.
   */
  predicate SerialTurns(cfg: Config, t: Table, steps: seq<Turn>, clock: int, cleared: set<string>)
    decreases |steps|
  {
    steps == []
    || (var s := steps[0];
        var (next, decision) := Step(cfg, t, s.op);
        && clock <= s.op.at
        && (s.op.Fail? ==> s.op.scope in cleared)
        && SerialTurns(cfg, if Lost(t, s) then t else next, steps[1..], s.op.at,
                       if s.restart || Lost(t, s) then {}
                       else if s.op.Check? && decision.allowed then cleared + {s.op.scope} else cleared - {s.op.scope}))
  }

  lemma SerialNext(cfg: Config, trace: seq<Op>, op: Op, cleared: set<string>)
    requires Serial(cfg, trace) && cleared <= Cleared(cfg, trace) && Clock(trace) <= op.at
             && (op.Fail? ==> op.scope in cleared)
    ensures Serial(cfg, trace + [op]) && Clock(trace + [op]) == op.at
    ensures After(cfg, trace + [op]) == Step(cfg, After(cfg, trace), op).0
    ensures (if op.Check? && Step(cfg, After(cfg, trace), op).1.allowed then cleared + {op.scope}
             else cleared - {op.scope})
         <= Cleared(cfg, trace + [op])
  {
    assert (trace + [op])[..|trace|] == trace;
  }

  /** What took hold is a serial run of the plain limiter, ending in the table memory ends in. */
  lemma {:induction false} TookIsSerial(cfg: Config, trace: seq<Op>, steps: seq<Turn>, clock: int, cleared: set<string>)
    requires Serial(cfg, trace) && cleared <= Cleared(cfg, trace) && Clock(trace) <= clock
    requires SerialTurns(cfg, After(cfg, trace), steps, clock, cleared)
    ensures var whole := trace + Took(cfg, After(cfg, trace), steps);
            Serial(cfg, whole) && After(cfg, whole) == MemoryRun(cfg, After(cfg, trace), steps).0
    decreases |steps|
  {
    hide Serial, Cleared, Step, Clock, After;
    var t := After(cfg, trace);
    if steps == [] {
      assert trace + [] == trace;
    } else {
      var s := steps[0];
      var decision := Step(cfg, t, s.op).1;
      var after := if s.restart || Lost(t, s) then {}
                   else if s.op.Check? && decision.allowed then cleared + {s.op.scope} else cleared - {s.op.scope};
      if Lost(t, s) {
        TookIsSerial(cfg, trace, steps[1..], s.op.at, after);
      } else {
        SerialNext(cfg, trace, s.op, cleared);
        TookIsSerial(cfg, trace + [s.op], steps[1..], s.op.at, after);
        assert trace + Took(cfg, t, steps) == trace + [s.op] + Took(cfg, Step(cfg, t, s.op).0, steps[1..]);
      }
    }
  }

  /**
   Over any run of operations, restarts and power failures from a device whose file, if
   there is one, accepts saves and holds no failures: no save is refused, and no window
   as long as the lockout holds more than maxFailures recorded failures of a scope
   without a success.
   */
  lemma PersistedLockoutBound(cfg: Config, disk: Disk, steps: seq<Turn>, scope: string, from: int)
    requires ConfigOk(cfg) && InStep(Persisted(map[], disk))
    requires RunOk(cfg, Persisted(map[], disk), steps) && SerialTurns(cfg, map[], steps, 0, {})
    ensures var r, took := PersistedRun(cfg, Persisted(map[], disk), steps), Took(cfg, map[], steps);
            && r.0.Some? && r.0.value.states == After(cfg, took)
            && |InWindow(FailTimes(took, scope), from, cfg.lockoutSeconds)| <= cfg.maxFailures
  {
    hide RunOk, SerialTurns, PersistedRun, MemoryRun, InStep, FailTimes, InWindow, Took;
    PersistedRunRefines(cfg, Persisted(map[], disk), steps);
    TookIsSerial(cfg, [], steps, 0, {});
    var took := Took(cfg, map[], steps);
    assert [] + took == took;
    LockoutBound(cfg, took, scope, from);
  }

  // ---- when saves are accepted ----

  lemma FreshName(names: set<string>) returns (temp: string)
    ensures temp !in names
  {
    var n := LongerThanAll(names);
    temp := seq(n, _ => 'x');
  }

  lemma {:induction false} LongerThanAll(names: set<string>) returns (n: nat)
    ensures forall s | s in names :: |s| < n
    decreases |names|
  {
    if names == {} {
      n := 0;
    } else {
      var s :| s in names;
      n := LongerThanAll(names - {s});
      n := if |s| < n then n else |s| + 1;
    }
  }

  /**
   From any device on which the limiter starts: no save of any run is refused exactly
   when the file is missing or of phase initialized or bricked. Over a file that does
   not read, and over one another part of the program left enrolled, ready or pending a
   restriction, the very first failure is refused.
   */
  lemma SavesAcceptedExactly(cfg: Config, p: Persisted)
    requires Started(p)
    ensures Writable(p.disk) <==> forall steps | RunOk(cfg, p, steps) :: PersistedRun(cfg, p, steps).0.Some?
  {
    hide LoadTable, Writable, RunOk, PersistedRun;
    if Writable(p.disk) {
      forall steps | RunOk(cfg, p, steps) ensures PersistedRun(cfg, p, steps).0.Some? {
        PersistedRunRefines(cfg, p, steps);
      }
    } else {
      var steps := FirstFailureRefused(cfg, p);
      assert RunOk(cfg, p, steps);
    }
  }

  lemma FirstFailureRefused(cfg: Config, p: Persisted) returns (steps: seq<Turn>)
    requires !Writable(p.disk)
    ensures RunOk(cfg, p, steps) && PersistedRun(cfg, p, steps).0.None?
  {
    hide LoadTable, ReadRecord, SavedRecord, SavedDisk, MayWrite, Writable;
    var temp := FreshName(p.disk.Keys + {ATTEMPT_STATE_NAME});
    var s := Turn(Fail("", 0), temp, 3, true);
    WritableExactly(p.disk, Step(cfg, p.states, s.op).0);
    steps := [s];
  }

  // ---- when a lockout takes hold ----

  /** What is left when the caller carries on after a refused save: memory as changed, or reloaded by a new process. */
  function CarryOn(cfg: Config, p: Persisted, s: Turn): Persisted {
    var next := PersistedStep(cfg, p, s).0;
    if next.Some? then next.value
    else if s.restart && LoadTable(p.disk).Some? then Persisted(LoadTable(p.disk).value, p.disk)
    else Persisted(Step(cfg, p.states, s.op).0, p.disk)
  }

  function CarryOnRun(cfg: Config, p: Persisted, steps: seq<Turn>): (Persisted, seq<Decision>)
    decreases |steps|
  {
    if steps == [] then (p, [])
    else
      var (end, rest) := CarryOnRun(cfg, CarryOn(cfg, p, steps[0]), steps[1..]);
      (end, [PersistedStep(cfg, p, steps[0]).1] + rest)
  }

  /**
   Over a file that refuses saves, with a process for each operation, the limiter never
   learns: the file stays as it is, and every decision is taken on the table it holds.
   */
  lemma {:induction false} RefusedNeverLearns(cfg: Config, p: Persisted, steps: seq<Turn>)
    requires Started(p) && !Writable(p.disk) && forall s <- steps :: s.restart
    ensures var r := CarryOnRun(cfg, p, steps);
            && r.0 == p && |r.1| == |steps|
            && forall i | 0 <= i < |steps| :: r.1[i] == Step(cfg, p.states, steps[i].op).1
    decreases |steps|
  {
    hide LoadTable, ReadRecord, SavedRecord, SavedDisk, MayWrite, Writable;
    if steps != [] {
      var s := steps[0];
      assert s in steps && s.restart;
      WritableExactly(p.disk, Step(cfg, p.states, s.op).0);
      if !Saves(p.states, s.op) {
        QuietCheck(cfg, p.states, s.op);
      }
      assert CarryOn(cfg, p, s) == p;
      RefusedNeverLearns(cfg, p, steps[1..]);
    }
  }

  /** A failure of the scope at the given second, in a process of its own, saved in full. */
  function FailTurn(scope: string, at: nat, temp: string): Turn {
    Turn(Fail(scope, at), temp, 3, true)
  }

  /** Failures of one scope accumulate over restarts while the file accepts saves. */
  lemma {:induction false} FailuresAccumulate(cfg: Config, p: Persisted, scope: string, times: seq<nat>, temp: string)
    requires InStep(p) && temp != ATTEMPT_STATE_NAME && temp !in p.disk
    ensures var turns := seq(|times|, i requires 0 <= i < |times| => FailTurn(scope, times[i], temp));
            CarryOnRun(cfg, p, turns).0.states == FailAt(cfg, p.states, scope, times)
    decreases |times|
  {
    hide LoadTable, ReadRecord, SavedRecord, MayWrite, Writable, FailStep, InStep;
    if times != [] {
      var turns := seq(|times|, i requires 0 <= i < |times| => FailTurn(scope, times[i], temp));
      var s := FailTurn(scope, times[0], temp);
      PersistedStepRefines(cfg, p, s);
      var next := PersistedStep(cfg, p, s).0.value;
      TempGone(cfg, p, s);
      FailuresAccumulate(cfg, next, scope, times[1..], temp);
      assert turns[0] == s;
      assert turns[1..] == seq(|times[1..]|, i requires 0 <= i < |times[1..]| => FailTurn(scope, times[1..][i], temp));
    }
  }

  lemma TempGone(cfg: Config, p: Persisted, s: Turn)
    requires s.temp != ATTEMPT_STATE_NAME && s.temp !in p.disk && s.power == 3 && PersistedStep(cfg, p, s).0.Some?
    ensures s.temp !in PersistedStep(cfg, p, s).0.value.disk
  {
    hide LoadTable, ReadRecord, SavedRecord, MayWrite, ToDict;
  }

  /**
   A scope with a clean slate that fails the maximum number of times, each in a process
   of its own, is locked out afterwards exactly when the file accepts saves.
   */
  lemma LockoutTakesHoldExactly(cfg: Config, p: Persisted, scope: string, times: seq<nat>, temp: string, now: nat)
    requires ConfigOk(cfg) && Started(p) && StateOf(p.states, scope) == AttemptState(0, 0)
    requires temp != ATTEMPT_STATE_NAME && temp !in p.disk
    requires |times| == cfg.maxFailures && times[|times| - 1] <= now < times[|times| - 1] + cfg.lockoutSeconds
    ensures var turns := seq(|times|, i requires 0 <= i < |times| => FailTurn(scope, times[i], temp));
            CheckStep(CarryOnRun(cfg, p, turns).0.states, scope, now).1.allowed <==> !Writable(p.disk)
  {
    hide CarryOnRun, LoadTable, Writable, FailStep;
    var turns := seq(|times|, i requires 0 <= i < |times| => FailTurn(scope, times[i], temp));
    if Writable(p.disk) {
      var n := |times| - 1;
      FailuresAccumulate(cfg, p, scope, times, temp);
      FailuresAdd(cfg, p.states, scope, times[..n]);
      FailAtLast(cfg, p.states, scope, times);
      LastFailureLocks(cfg, FailAt(cfg, p.states, scope, times[..n]), scope, times[n]);
    } else {
      RefusedNeverLearns(cfg, p, turns);
    }
  }

  lemma LastFailureLocks(cfg: Config, t: Table, scope: string, at: nat)
    requires ConfigOk(cfg) && StateOf(t, scope).failures == cfg.maxFailures - 1
    ensures StateOf(FailStep(cfg, t, scope, at), scope).lockedUntil == at + cfg.lockoutSeconds
  {
  }

  /** Both kinds of refusing file exist: one that does not read, and a sound record of phase ready. */
  lemma RefusingFiles(category: string, at: int)
    ensures var torn := map[ATTEMPT_STATE_NAME := Torn];
            Started(Persisted(map[], torn)) && !Writable(torn)
    ensures var sound := StateRecord(category, Ready, SCHEMA_VERSION, at, map[]);
            var ready := map[ATTEMPT_STATE_NAME := Whole(ToDict(sound))];
            Started(Persisted(map[], ready)) && !Writable(ready)
  {
    hide FromDict, ToDict;
    FromDictInvertsToDict(StateRecord(category, Ready, SCHEMA_VERSION, at, map[]));
  }
}
