/**
 The two Faces of a Vessel on its vault (vessel_workflow_service.py): a call reads its
 Face's file map from the open slot, changes its copy and stores the copy back. How the
 store ended is what the vault's two slot writes made of it.
 */
module FaceVault {
  import opened Wrappers
  import opened KeyContext
  import opened ContainerLayout
  import RecordCipher
  import V = Vault
  import F = FaceNamespace

  /** The text form of a file map; None is text that is no file map. */
  datatype Codec = Codec(encode: F.Files -> string, decode: string -> Option<F.Files>)

  ghost predicate CodecOk(c: Codec) {
    forall files :: c.decode(c.encode(files)) == Some(files)
  }

  datatype Creds = Creds(password: string, cue: seq<string>)

  /** The vault, and what each Face is opened with. */
  datatype Vessel = Vessel(vault: V.Config, codec: Codec, dummy: Creds, secret: Creds) {
    function CredsOf(m: Mode): Creds {
      match m case Dummy => dummy case Secret => secret
    }

    function FaceConfig(m: Mode): F.Config {
      F.Config(codec.encode, Capacity(vault.size, Slot(m, Open)))
    }
  }

  const NAMESPACE_NAME := "face-namespace.bin"

  /** One call on a Face; the `write` of its operation says nothing here. */
  datatype Call = Call(mode: Mode, op: F.Op, initialized: bool, restricted: Option<string>,
                       open: V.Sealing, purge: V.Sealing, fill: string)

  predicate CallOk(v: Vessel, c: Call) {
    V.SealingOk(v.vault, c.open) && V.SealingOk(v.vault, c.purge) && |c.fill| >= v.vault.size
  }

  /** A formatted Vessel: the container and an access key exist. */
  predicate Ready(v: Vessel, d: V.Disk) {
    V.ValidDisk(v.vault, d) && d.container.Some? && d.keyFile.Some? && |d.keyFile.value| == ACCESS_KEY_SIZE
  }

  /** The map a Face's open slot holds, a bare file becoming a map of one; None when nothing opens. */
  function View(v: Vessel, d: V.Disk, m: Mode): Option<F.Files>
    requires Ready(v, d)
  {
    var r := V.RetrieveSlot(v.vault, d, v.CredsOf(m).password, v.CredsOf(m).cue, Slot(m, Open));
    if r.None? then None
    else if v.codec.decode(r.value.0).Some? then v.codec.decode(r.value.0)
    else Some(map[r.value.1 := F.FileEntry(r.value.0, -1, F.Legacy, 0)])
  }

  function FilesIn(view: Option<F.Files>): F.Files {
    if view.Some? then view.value else map[]
  }

  function StoreOp(v: Vessel, c: Call, files: F.Files): V.Op {
    var creds, data := v.CredsOf(c.mode), v.codec.encode(files);
    if c.restricted.None? then V.StoreOpenOnly(creds.password, data, creds.cue, Some(NAMESPACE_NAME), c.mode, c.open)
    else V.Store(creds.password, data, creds.cue, Some(NAMESPACE_NAME), c.mode, c.restricted, c.open, c.purge, c.fill)
  }

  /** How storing the changed map ends: the vault's first write may succeed and its second raise. */
  function WriteOf(v: Vessel, d: V.Disk, c: Call, files: F.Files): F.Write
    requires Ready(v, d) && CallOk(v, c)
  {
    var creds, data := v.CredsOf(c.mode), v.codec.encode(files);
    if V.Step(v.vault, d, StoreOp(v, c, files)).1.None? then F.Whole
    else if c.restricted.None? || c.restricted == Some(creds.password)
         || V.WriteSlot(v.vault, d, Slot(c.mode, Open), creds.password, data, creds.cue, Some(NAMESPACE_NAME),
                        c.open).1.Some?
    then F.Refused
    else F.HalfDone
  }

  /** A slot that does not open is an error, unless the Face was never set up: it is then empty. */
  predicate Opens(v: Vessel, d: V.Disk, c: Call)
    requires Ready(v, d)
  {
    View(v, d, c.mode).Some? || !c.initialized
  }

  /** The operation as it went, with how its write ended. */
  ghost function Went(v: Vessel, d: V.Disk, c: Call): F.Op
    requires Ready(v, d) && CallOk(v, c)
  {
    var change := F.Change(v.FaceConfig(c.mode), FilesIn(View(v, d, c.mode)), c.op);
    c.op.(write := if change.Ok? then WriteOf(v, d, c, change.value) else F.Refused)
  }

  /** The vault after a call. */
  ghost function Do(v: Vessel, d: V.Disk, c: Call): (r: V.Disk)
    requires Ready(v, d) && CallOk(v, c)
  {
    var change := F.Change(v.FaceConfig(c.mode), FilesIn(View(v, d, c.mode)), c.op);
    if !Opens(v, d, c) || change.Err? then d else V.Step(v.vault, d, StoreOp(v, c, change.value)).0
  }

  // ---- one call ----

  /** In the plain map: a refused store changes nothing, any other puts the new map in the Face's open slot. */
  lemma PlainStored(v: Vessel, d: V.Disk, p: V.Plain, c: Call, files: F.Files)
    requires V.Rep(v.vault, d, p) && Ready(v, d) && CallOk(v, c)
    ensures var q, creds := V.PlainStep(v.vault, p, StoreOp(v, c, files)).0, v.CredsOf(c.mode);
            && q.keyFile == p.keyFile && q.formatted
            && if WriteOf(v, d, c, files).Refused? then q == p
               else Slot(c.mode, Open) in q.slots
                    && q.slots[Slot(c.mode, Open)]
                       == V.Entry(d.keyFile.value, creds.password, creds.cue, v.codec.encode(files),
                                  RecordCipher.StoredName(Some(NAMESPACE_NAME)))
  {
    hide V.WriteSlot, V.Step, RecordCipher.FitFailure, RecordCipher.StoredName, V.SlotRep;
    var creds, data := v.CredsOf(c.mode), v.codec.encode(files);
    V.StepRefines(v.vault, d, p, StoreOp(v, c, files));
    V.WriteSlotRefines(v.vault, d, p, Slot(c.mode, Open), creds.password, data, creds.cue, Some(NAMESPACE_NAME),
                       c.open);
  }

  /** A slot that holds an encoded map views as that map. */
  lemma StoredViews(v: Vessel, d: V.Disk, q: V.Plain, m: Mode, files: F.Files)
    requires CodecOk(v.codec) && Ready(v, d) && V.Rep(v.vault, d, q) && Slot(m, Open) in q.slots
    requires q.slots[Slot(m, Open)]
             == V.Entry(d.keyFile.value, v.CredsOf(m).password, v.CredsOf(m).cue, v.codec.encode(files),
                                               RecordCipher.StoredName(Some(NAMESPACE_NAME)))
    ensures View(v, d, m) == Some(files)
  {
    hide V.RetrieveSlot, V.SlotRep, RecordCipher.StoredName, ContextPassword;
    V.SlotRetrieval(v.vault, d, q, v.CredsOf(m).password, v.CredsOf(m).cue, Slot(m, Open));
  }

  /** What a Face shows depends on the plain map's entry of its open slot and the key file. */
  lemma SameViews(v: Vessel, d: V.Disk, p: V.Plain, e: V.Disk, q: V.Plain, m: Mode)
    requires Ready(v, d) && Ready(v, e) && V.Rep(v.vault, d, p) && V.Rep(v.vault, e, q) && p.keyFile == q.keyFile
    requires (Slot(m, Open) in p.slots <==> Slot(m, Open) in q.slots)
             && (Slot(m, Open) in p.slots ==> p.slots[Slot(m, Open)] == q.slots[Slot(m, Open)])
    ensures View(v, d, m) == View(v, e, m)
  {
    hide V.RetrieveSlot, V.Rep, ContextPassword;
    V.SlotRetrieval(v.vault, d, p, v.CredsOf(m).password, v.CredsOf(m).cue, Slot(m, Open));
    V.SlotRetrieval(v.vault, e, q, v.CredsOf(m).password, v.CredsOf(m).cue, Slot(m, Open));
  }

  lemma StoreOpOk(v: Vessel, c: Call, files: F.Files)
    requires CallOk(v, c)
    ensures V.OpOk(v.vault, StoreOp(v, c, files))
  {
  }

  /** A store leaves the other mode's entries alone. */
  lemma OtherEntries(v: Vessel, p: V.Plain, c: Call, files: F.Files, m: Mode)
    requires m != c.mode
    ensures var q := V.PlainStep(v.vault, p, StoreOp(v, c, files)).0;
            (Slot(m, Open) in p.slots <==> Slot(m, Open) in q.slots)
            && (Slot(m, Open) in p.slots ==> p.slots[Slot(m, Open)] == q.slots[Slot(m, Open)])
  {
    hide RecordCipher.FitFailure, RecordCipher.StoredName;
  }

  /**
   One call on the vault is one step of its Face's file map, its `write` exactly as the
   slot writes went, and no step of the other Face's.
   */
  lemma CallRefines(v: Vessel, d: V.Disk, p: V.Plain, c: Call) returns (q: V.Plain)
    requires CodecOk(v.codec) && V.Rep(v.vault, d, p) && Ready(v, d) && CallOk(v, c)
    ensures V.Rep(v.vault, Do(v, d, c), q) && Ready(v, Do(v, d, c))
    ensures FilesIn(View(v, Do(v, d, c), c.mode))
         == if Opens(v, d, c) then F.Step(v.FaceConfig(c.mode), FilesIn(View(v, d, c.mode)), Went(v, d, c)).0
            else FilesIn(View(v, d, c.mode))
    ensures View(v, Do(v, d, c), Other(c.mode)) == View(v, d, Other(c.mode))
  {
    hide View, V.Step, V.PlainStep, V.Rep, WriteOf, StoreOp, CodecOk, CallOk;
    q := p;
    var change := F.Change(v.FaceConfig(c.mode), FilesIn(View(v, d, c.mode)), c.op);
    WriteMattersLast(v.FaceConfig(c.mode), FilesIn(View(v, d, c.mode)), c.op, Went(v, d, c).write);
    if Opens(v, d, c) && change.Ok? {
      StoreOpOk(v, c, change.value);
      V.StepRefines(v.vault, d, p, StoreOp(v, c, change.value));
      PlainStored(v, d, p, c, change.value);
      q := V.PlainStep(v.vault, p, StoreOp(v, c, change.value)).0;
      ReadyAgain(v, d, p, Do(v, d, c), q);
      OtherEntries(v, p, c, change.value, Other(c.mode));
      SameViews(v, d, p, Do(v, d, c), q, Other(c.mode));
      if WriteOf(v, d, c, change.value).Refused? {
        SameViews(v, d, p, Do(v, d, c), q, c.mode);
      } else {
        SameKey(v, d, p, Do(v, d, c), q);
        StoredViews(v, Do(v, d, c), q, c.mode, change.value);
      }
    }
  }

  /** How a call ends: the error of a Face that does not open, or what its step reports. */
  datatype Ending = NotOpened | Ended(outcome: F.Outcome)

  ghost function EndOf(v: Vessel, d: V.Disk, c: Call): Ending
    requires Ready(v, d) && CallOk(v, c)
  {
    if !Opens(v, d, c) then NotOpened
    else Ended(F.Step(v.FaceConfig(c.mode), FilesIn(View(v, d, c.mode)), Went(v, d, c)).1)
  }

  /**
   What each ending means for the vault. Done: the vault raised nothing and shows the
   changed map. Restricted write failed: it raised, and shows the changed map all the
   same. Not persisted: it raised, and shows what it showed. Anything else left every
   byte alone.
   */
  lemma EndingExactly(v: Vessel, d: V.Disk, p: V.Plain, c: Call)
    requires CodecOk(v.codec) && V.Rep(v.vault, d, p) && Ready(v, d) && CallOk(v, c)
    ensures Ready(v, Do(v, d, c))
    ensures var change := F.Change(v.FaceConfig(c.mode), FilesIn(View(v, d, c.mode)), c.op);
            var shown := FilesIn(View(v, Do(v, d, c), c.mode));
            var raised := change.Ok? && V.Step(v.vault, d, StoreOp(v, c, change.value)).1.Some?;
            match EndOf(v, d, c)
            case NotOpened => Do(v, d, c) == d
            case Ended(outcome) =>
              match outcome
              case Done => change.Ok? && !raised && shown == change.value
              case RestrictedFailed => change.Ok? && raised && shown == change.value
              case NotPersisted => change.Ok? && raised && shown == FilesIn(View(v, d, c.mode))
              case _ => change == Err(outcome) && Do(v, d, c) == d
  {
    hide View, V.Step, V.Rep, StoreOp, CodecOk, CallOk, Ready, F.Fill, F.MaxSeq;
    var q := CallRefines(v, d, p, c);
    var change := F.Change(v.FaceConfig(c.mode), FilesIn(View(v, d, c.mode)), c.op);
    WriteMattersLast(v.FaceConfig(c.mode), FilesIn(View(v, d, c.mode)), c.op, Went(v, d, c).write);
    ChangeErrors(v.FaceConfig(c.mode), FilesIn(View(v, d, c.mode)), c.op);
  }

  lemma ChangeErrors(cfg: F.Config, files: F.Files, op: F.Op)
    ensures F.Change(cfg, files, op).Err? ==> F.Change(cfg, files, op).reason in {F.FileNotFound, F.NothingFits}
  {
  }

  /** Clearing through the vault: unless the store was refused, no filler is left and every other file is. */
  lemma ClearThroughVault(v: Vessel, d: V.Disk, p: V.Plain, c: Call)
    requires CodecOk(v.codec) && V.Rep(v.vault, d, p) && Ready(v, d) && CallOk(v, c) && c.op.Clear? && Opens(v, d, c)
    ensures Ready(v, Do(v, d, c))
    ensures var before, after := FilesIn(View(v, d, c.mode)), FilesIn(View(v, Do(v, d, c), c.mode));
            if EndOf(v, d, c) in {Ended(F.Done), Ended(F.RestrictedFailed)} then F.ClearedFrom(before, after)
            else EndOf(v, d, c) == Ended(F.NotPersisted) && after == before
  {
    hide View, V.Step, V.Rep, StoreOp, CodecOk, CallOk, Ready, Do, WriteOf, F.ClearedFrom, F.WithoutGenerated;
    var q := CallRefines(v, d, p, c);
    F.ClearExactly(v.FaceConfig(c.mode), FilesIn(View(v, d, c.mode)), Went(v, d, c).write);
  }

  /** Generating through the vault: operator files stay, and any filler left is the specs'. */
  lemma GenerateThroughVault(v: Vessel, d: V.Disk, p: V.Plain, c: Call)
    requires CodecOk(v.codec) && V.Rep(v.vault, d, p) && Ready(v, d) && CallOk(v, c) && c.op.Generate? && Opens(v, d, c)
    ensures Ready(v, Do(v, d, c))
    ensures var before, after := FilesIn(View(v, d, c.mode)), FilesIn(View(v, Do(v, d, c), c.mode));
            if EndOf(v, d, c) in {Ended(F.Done), Ended(F.RestrictedFailed)}
            then F.FilledFrom(before, after, c.op.specs, c.op.at) && F.HasGenerated(after)
            else EndOf(v, d, c) in {Ended(F.NotPersisted), Ended(F.NothingFits)} && after == before
  {
    hide View, V.Step, V.Rep, StoreOp, CodecOk, CallOk, Ready, Do, WriteOf, F.FilledFrom, F.WithoutGenerated, F.Fill,
         F.HasGenerated;
    var q := CallRefines(v, d, p, c);
    F.GenerateExactly(v.FaceConfig(c.mode), FilesIn(View(v, d, c.mode)), c.op.specs, c.op.at, Went(v, d, c).write);
  }

  lemma WriteMattersLast(cfg: F.Config, files: F.Files, op: F.Op, write: F.Write)
    ensures F.Change(cfg, files, op.(write := write)) == F.Change(cfg, files, op)
  {
  }

  lemma ReadyAgain(v: Vessel, d: V.Disk, p: V.Plain, e: V.Disk, q: V.Plain)
    requires Ready(v, d) && V.Rep(v.vault, d, p) && V.Rep(v.vault, e, q) && q.keyFile == p.keyFile && q.formatted
    ensures Ready(v, e)
  {
    hide V.SlotRep;
  }

  lemma SameKey(v: Vessel, d: V.Disk, p: V.Plain, e: V.Disk, q: V.Plain)
    requires V.Rep(v.vault, d, p) && V.Rep(v.vault, e, q) && q.keyFile == p.keyFile
    ensures e.keyFile == d.keyFile
  {
    hide V.SlotRep;
  }

  // ---- runs ----

  ghost function DoAll(v: Vessel, d: V.Disk, calls: seq<Call>): V.Disk
    requires Ready(v, d) && forall c <- calls :: CallOk(v, c)
    decreases |calls|
  {
    if calls == [] then d
    else
      var next := Do(v, d, calls[0]);
      if Ready(v, next) then DoAll(v, next, calls[1..]) else next
  }

  /** The operations a Face performed, the other Face's calls and calls that did not open left out. */
  ghost function OpsOf(v: Vessel, d: V.Disk, calls: seq<Call>, m: Mode): seq<F.Op>
    requires Ready(v, d) && forall c <- calls :: CallOk(v, c)
    decreases |calls|
  {
    if calls == [] then []
    else
      var next := Do(v, d, calls[0]);
      (if calls[0].mode == m && Opens(v, d, calls[0]) then [Went(v, d, calls[0])] else [])
      + if Ready(v, next) then OpsOf(v, next, calls[1..], m) else []
  }

  /** Over any run of calls on both Faces, the vault holds of each exactly what its own operations made of it. */
  lemma {:induction false} CallsRefine(v: Vessel, d: V.Disk, p: V.Plain, calls: seq<Call>, m: Mode) returns (q: V.Plain)
    requires CodecOk(v.codec) && V.Rep(v.vault, d, p) && Ready(v, d) && forall c <- calls :: CallOk(v, c)
    ensures V.Rep(v.vault, DoAll(v, d, calls), q) && Ready(v, DoAll(v, d, calls))
    ensures FilesIn(View(v, DoAll(v, d, calls), m))
            == F.Run(v.FaceConfig(m), FilesIn(View(v, d, m)), OpsOf(v, d, calls, m))
    decreases |calls|
  {
    hide View, V.Rep, CodecOk, CallOk, Do, Went, Opens, Ready, F.Step;
    q := p;
    if calls != [] {
      var next := Do(v, d, calls[0]);
      var r := CallRefines(v, d, p, calls[0]);
      q := CallsRefine(v, next, r, calls[1..], m);
      var rest := OpsOf(v, next, calls[1..], m);
      if calls[0].mode == m && Opens(v, d, calls[0]) {
        var first := Went(v, d, calls[0]);
        assert OpsOf(v, d, calls, m) == [first] + rest;
        assert ([first] + rest)[1..] == rest;
      } else {
        assert OpsOf(v, d, calls, m) == [] + rest == rest;
        assert calls[0].mode == m || Other(calls[0].mode) == m;
      }
    }
  }

  /** A vault just formatted is ready, and both its Faces hold nothing. */
  lemma FormattedIsEmpty(v: Vessel, d: V.Disk, p: V.Plain, key: string, fill: string, m: Mode)
    requires V.Rep(v.vault, d, p) && |key| == ACCESS_KEY_SIZE && |fill| >= v.vault.size
    requires d.keyFile.Some? ==> |d.keyFile.value| == ACCESS_KEY_SIZE
    ensures var e := V.Step(v.vault, d, V.Format(false, key, fill)).0;
            Ready(v, e) && V.Rep(v.vault, e, V.PlainStep(v.vault, p, V.Format(false, key, fill)).0)
                && View(v, e, m) == None
  {
    hide V.RetrieveSlot, V.SlotRep;
    var format := V.Format(false, key, fill);
    V.StepRefines(v.vault, d, p, format);
    V.SlotRetrieval(v.vault, V.Step(v.vault, d, format).0, V.PlainStep(v.vault, p, format).0,
                    v.CredsOf(m).password, v.CredsOf(m).cue, Slot(m, Open));
  }

  /**
   From a Face that holds nothing, through any calls on both Faces whose clock never
   steps back, half-done stores included: what a nameless retrieval of the Face returns
   from the vault are the bytes its operator stored last and has not removed.
   */
  lemma VaultReturnsLastStored(v: Vessel, d: V.Disk, p: V.Plain, calls: seq<Call>, m: Mode)
    requires CodecOk(v.codec) && V.Rep(v.vault, d, p) && Ready(v, d) && (forall c <- calls :: CallOk(v, c))
    requires FilesIn(View(v, d, m)) == map[]
    requires F.ClockNeverStepsBack(-1, OpsOf(v, d, calls, m)) && F.History([], OpsOf(v, d, calls, m)) != []
    ensures Ready(v, DoAll(v, d, calls))
    ensures var files, live := FilesIn(View(v, DoAll(v, d, calls), m)), F.History([], OpsOf(v, d, calls, m));
            var last := live[|live| - 1];
            F.IsChosen(files, last.name) && last.name in files && files[last.name].data == last.data
  {
    hide View, V.Rep, CodecOk, CallOk, Do, Ready, DoAll, OpsOf, F.Run, F.IsChosen, F.History;
    var q := CallsRefine(v, d, p, calls, m);
    F.RunReturnsLastStored(v.FaceConfig(m), [], OpsOf(v, d, calls, m));
    assert F.LegacyFiles([]) == map[];
  }
}
