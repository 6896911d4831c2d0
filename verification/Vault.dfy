/**
 The vault operations of vault_core.py as steps on the container file and the
 access-key file, and the plain map from slot to record that they refine.
 The container is opened with the size it was formatted with.
 */
module Vault {
  import opened Wrappers
  import opened KeyContext
  import opened ContainerLayout
  import opened RecordCipher
  import Text

  datatype Config = Config(size: nat, providers: seq<Option<string>>)

  /** The two files a vault owns; None is a file that does not exist. */
  datatype Disk = Disk(container: Option<seq<Octet>>, keyFile: Option<string>)

  /** Random and clock inputs of one slot write. */
  datatype Sealing = Sealing(salt: string, nonce: string, padding: string, createdAt: nat, freshKey: string)

  predicate SealingOk(cfg: Config, s: Sealing) {
    && |s.salt| == SALT_SIZE && |s.nonce| == NONCE_SIZE
    && |s.padding| >= cfg.size && |s.freshKey| == ACCESS_KEY_SIZE
  }

  predicate ValidDisk(cfg: Config, d: Disk) {
    cfg.size >= MIN_CONTAINER_SIZE && (d.container.Some? ==> |d.container.value| == cfg.size)
  }

  // ---- access key ----

  function ExistingKey(keyFile: Option<string>): Result<Option<string>, Failure> {
    if keyFile.Some? && |keyFile.value| != ACCESS_KEY_SIZE then Err(BadAccessKey) else Ok(keyFile)
  }

  function KeyForWriting(keyFile: Option<string>, newKey: string): Result<string, Failure> {
    if keyFile.None? then Ok(newKey)
    else if |keyFile.value| != ACCESS_KEY_SIZE then Err(BadAccessKey)
    else Ok(keyFile.value)
  }

  function SlotKey(cfg: Config, slot: Slot, local: Option<string>, password: string, cue: seq<string>,
                   salt: seq<Octet>): Key {
    Derived(salt, KdfSecret(local, cfg.providers), ContextPassword(password, cue, slot.mode, slot.role))
  }

  // ---- steps on the files ----

  function WriteSlot(cfg: Config, d: Disk, slot: Slot, password: string, data: string, cue: seq<string>,
                     filename: Option<string>, s: Sealing): (r: (Disk, Option<Failure>))
    requires ValidDisk(cfg, d) && d.container.Some? && SealingOk(cfg, s)
    ensures ValidDisk(cfg, r.0) && r.0.container.Some?
  {
    var key := KeyForWriting(d.keyFile, s.freshKey);
    if key.Err? then (d, Some(key.reason)) else
    var keyed := d.(keyFile := Some(key.value));
    var sealed := EncryptRecord(cfg.size, slot, data, SlotKey(cfg, slot, Some(key.value), password, cue, Raws(s.salt)),
                                StoredName(filename), s.createdAt, Raws(s.nonce), s.padding);
    if sealed.Err? then (keyed, Some(sealed.reason)) else
    var payload := Raws(s.salt) + Raws(s.nonce) + sealed.value;
    (keyed.(container := Some(WriteAt(d.container.value, SlotSpan(cfg.size, slot).start, payload))), None)
  }

  function RandomizeSpan(cfg: Config, d: Disk, span: Span, fill: string): (r: Disk)
    requires ValidDisk(cfg, d) && d.container.Some? && Within(span, cfg.size) && |fill| >= cfg.size
    ensures ValidDisk(cfg, r) && r.container.Some?
  {
    d.(container := Some(WriteAt(d.container.value, span.start, Raws(fill[..span.len]))))
  }

  datatype Op =
    | Format(rotate: bool, freshKey: string, fill: string)
    | Store(password: string, data: string, cue: seq<string>, filename: Option<string>, mode: Mode,
            restricted: Option<string>, open: Sealing, purge: Sealing, fill: string)
    | StoreOpenOnly(password: string, data: string, cue: seq<string>, filename: Option<string>, mode: Mode,
                    open: Sealing)
    | PurgeMode(mode: Mode, fill: string)
    | PurgeOtherMode(accessed: Mode, fill: string)
    | RotateAccessKey(freshKey: string)
    | DestroyAccessKeys
    | SilentBrick(fill: string)

  /** Random inputs have the length the code asks for. */
  predicate OpOk(cfg: Config, op: Op) {
    match op
    case Format(_, freshKey, fill) => |freshKey| == ACCESS_KEY_SIZE && |fill| >= cfg.size
    case Store(_, _, _, _, _, _, open, purge, fill) => SealingOk(cfg, open) && SealingOk(cfg, purge)
        && |fill| >= cfg.size
    case StoreOpenOnly(_, _, _, _, _, open) => SealingOk(cfg, open)
    case PurgeMode(_, fill) => |fill| >= cfg.size
    case PurgeOtherMode(_, fill) => |fill| >= cfg.size
    case RotateAccessKey(freshKey) => |freshKey| == ACCESS_KEY_SIZE
    case DestroyAccessKeys => true
    case SilentBrick(fill) => |fill| >= cfg.size
  }

  function Step(cfg: Config, d: Disk, op: Op): (r: (Disk, Option<Failure>))
    requires ValidDisk(cfg, d) && OpOk(cfg, op)
    ensures ValidDisk(cfg, r.0)
  {
    match op
    case Format(rotate, freshKey, fill) =>
      var key := if rotate then Ok(freshKey) else KeyForWriting(d.keyFile, freshKey);
      if key.Err? then (d, Some(key.reason))
      else (Disk(Some(Raws(fill[..cfg.size])), Some(key.value)), None)
    case Store(password, data, cue, filename, mode, restricted, open, purge, fill) =>
      if d.container.None? then (d, Some(NoContainer))
      else if restricted == Some(password) then (d, Some(SamePassword))
      else
        var first := WriteSlot(cfg, d, Slot(mode, Open), password, data, cue, filename, open);
        if first.1.Some? then first
        else if restricted.Some? && restricted.value != "" then
          WriteSlot(cfg, first.0, Slot(mode, Purge), restricted.value, data, cue, filename, purge)
        else (RandomizeSpan(cfg, first.0, SlotSpan(cfg.size, Slot(mode, Purge)), fill), None)
    case StoreOpenOnly(password, data, cue, filename, mode, open) =>
      if d.container.None? then (d, Some(NoContainer))
      else WriteSlot(cfg, d, Slot(mode, Open), password, data, cue, filename, open)
    case PurgeMode(mode, fill) =>
      if d.container.None? then (d, Some(NoContainer))
      else (RandomizeSpan(cfg, d, ModeSpan(cfg.size, mode), fill), None)
    case PurgeOtherMode(accessed, fill) =>
      if d.container.None? then (d, Some(NoContainer))
      else (RandomizeSpan(cfg, d, ModeSpan(cfg.size, Other(accessed)), fill), None)
    case RotateAccessKey(freshKey) => (d.(keyFile := Some(freshKey)), None)
    case DestroyAccessKeys => (d.(keyFile := None), None)
    case SilentBrick(fill) =>
      var destroyed := d.(keyFile := None);
      if d.container.None? then (destroyed, Some(NoContainer))
      else (RandomizeSpan(cfg, destroyed, Span(0, cfg.size), fill), None)
  }

  function Run(cfg: Config, d: Disk, ops: seq<Op>): (r: Disk)
    requires ValidDisk(cfg, d) && forall op <- ops :: OpOk(cfg, op)
    ensures ValidDisk(cfg, r)
    decreases |ops|
  {
    if ops == [] then d else Run(cfg, Step(cfg, d, ops[0]).0, ops[1..])
  }

  // ---- retrieval ----

  function RetrieveSlot(cfg: Config, d: Disk, password: string, cue: seq<string>, slot: Slot): Option<(string, string)>
    requires ValidDisk(cfg, d) && d.container.Some?
  {
    var octets := SlotBytes(d.container.value, slot);
    var salt, nonce, ciphertext := octets[..SALT_SIZE], octets[SALT_SIZE..SALT_SIZE + NONCE_SIZE],
        octets[SALT_SIZE + NONCE_SIZE..];
    var local := ExistingKey(d.keyFile);
    if local.Err? then None
    else DecryptRecord(cfg.size, slot, ciphertext, SlotKey(cfg, slot, local.value, password, cue, salt), nonce)
  }

  /** Payload, name and the role whose slot answered. */
  datatype Retrieved = Retrieved(data: string, name: string, role: Role)

  function Retrieve(cfg: Config, d: Disk, password: string, cue: seq<string>,
                    mode: Mode): Result<Option<Retrieved>, Failure>
    requires ValidDisk(cfg, d)
  {
    if d.container.None? then Err(NoContainer) else
    var open := RetrieveSlot(cfg, d, password, cue, Slot(mode, Open));
    if open.Some? then Ok(Some(Retrieved(open.value.0, open.value.1, Open))) else
    var purge := RetrieveSlot(cfg, d, password, cue, Slot(mode, Purge));
    if purge.Some? then Ok(Some(Retrieved(purge.value.0, purge.value.1, Purge))) else Ok(None)
  }

  // ---- the plain map ----

  datatype Entry = Entry(accessKey: string, password: string, cue: seq<string>, data: string, name: string)

  /** What the files mean: which slots hold a record, and what must be presented to read it. */
  datatype Plain = Plain(formatted: bool, keyFile: Option<string>, slots: map<Slot, Entry>)

  function PlainWrite(cfg: Config, p: Plain, slot: Slot, password: string, data: string, cue: seq<string>,
                      filename: Option<string>, s: Sealing): (Plain, Option<Failure>)
  {
    var key := KeyForWriting(p.keyFile, s.freshKey);
    if key.Err? then (p, Some(key.reason)) else
    var keyed := p.(keyFile := Some(key.value));
    var failure := FitFailure(cfg.size, slot, StoredName(filename), |data|, s.createdAt);
    if failure.Some? then (keyed, failure)
    else (keyed.(slots := p.slots[slot := Entry(key.value, password, cue, data, StoredName(filename))]), None)
  }

  function Forget(p: Plain, slots: set<Slot>): Plain {
    p.(slots := p.slots - slots)
  }

  function PlainStep(cfg: Config, p: Plain, op: Op): (Plain, Option<Failure>) {
    match op
    case Format(rotate, freshKey, _) =>
      var key := if rotate then Ok(freshKey) else KeyForWriting(p.keyFile, freshKey);
      if key.Err? then (p, Some(key.reason)) else (Plain(true, Some(key.value), map[]), None)
    case Store(password, data, cue, filename, mode, restricted, open, purge, _) =>
      if !p.formatted then (p, Some(NoContainer))
      else if restricted == Some(password) then (p, Some(SamePassword))
      else
        var first := PlainWrite(cfg, p, Slot(mode, Open), password, data, cue, filename, open);
        if first.1.Some? then first
        else if restricted.Some? && restricted.value != "" then
          PlainWrite(cfg, first.0, Slot(mode, Purge), restricted.value, data, cue, filename, purge)
        else (Forget(first.0, {Slot(mode, Purge)}), None)
    case StoreOpenOnly(password, data, cue, filename, mode, open) =>
      if !p.formatted then (p, Some(NoContainer))
      else PlainWrite(cfg, p, Slot(mode, Open), password, data, cue, filename, open)
    case PurgeMode(mode, _) =>
      if !p.formatted then (p, Some(NoContainer)) else (Forget(p, ModeSlots(mode)), None)
    case PurgeOtherMode(accessed, _) =>
      if !p.formatted then (p, Some(NoContainer)) else (Forget(p, ModeSlots(Other(accessed))), None)
    case RotateAccessKey(freshKey) => (p.(keyFile := Some(freshKey)), None)
    case DestroyAccessKeys => (p.(keyFile := None), None)
    case SilentBrick(_) =>
      if !p.formatted then (p.(keyFile := None), Some(NoContainer)) else (Plain(true, None, map[]), None)
  }

  function PlainRun(cfg: Config, p: Plain, ops: seq<Op>): Plain
    decreases |ops|
  {
    if ops == [] then p else PlainRun(cfg, PlainStep(cfg, p, ops[0]).0, ops[1..])
  }

  /** A slot answers its access key and the key-derivation context of its record. */
  function PlainSlot(p: Plain, password: string, cue: seq<string>, slot: Slot): Option<(string, string)> {
    if slot in p.slots && p.keyFile == Some(p.slots[slot].accessKey)
       && ContextPassword(p.slots[slot].password, p.slots[slot].cue, slot.mode, slot.role)
          == ContextPassword(password, cue, slot.mode, slot.role)
    then Some((p.slots[slot].data, ReturnedName(p.slots[slot].name)))
    else None
  }

  function PlainRetrieve(p: Plain, password: string, cue: seq<string>, mode: Mode): Result<Option<Retrieved>, Failure> {
    if !p.formatted then Err(NoContainer) else
    var open := PlainSlot(p, password, cue, Slot(mode, Open));
    if open.Some? then Ok(Some(Retrieved(open.value.0, open.value.1, Open))) else
    var purge := PlainSlot(p, password, cue, Slot(mode, Purge));
    if purge.Some? then Ok(Some(Retrieved(purge.value.0, purge.value.1, Purge))) else Ok(None)
  }

  // ---- representation ----

  predicate EntryFits(cfg: Config, slot: Slot, e: Entry, s: Sealing) {
    && SealingOk(cfg, s) && |e.accessKey| == ACCESS_KEY_SIZE && '/' !in e.name
    && FitFailure(cfg.size, slot, e.name, |e.data|, s.createdAt).None?
  }

  function SlotImage(cfg: Config, slot: Slot, e: Entry, s: Sealing): seq<Octet>
    requires EntryFits(cfg, slot, e, s)
  {
    Raws(s.salt) + Raws(s.nonce)
    + EncryptRecord(cfg.size, slot, e.data, SlotKey(cfg, slot, Some(e.accessKey), e.password, e.cue, Raws(s.salt)),
                    e.name, s.createdAt, Raws(s.nonce), s.padding).value
  }

  ghost predicate Holds(cfg: Config, octets: seq<Octet>, slot: Slot, e: Entry) {
    exists s :: EntryFits(cfg, slot, e, s) && octets == SlotImage(cfg, slot, e, s)
  }

  ghost predicate AllRaw(octets: seq<Octet>) {
    forall i | 0 <= i < |octets| :: octets[i].Raw?
  }

  ghost predicate SlotRep(cfg: Config, octets: seq<Octet>, slot: Slot, slots: map<Slot, Entry>) {
    if slot in slots then Holds(cfg, octets, slot, slots[slot]) else AllRaw(octets)
  }

  ghost predicate Rep(cfg: Config, d: Disk, p: Plain) {
    && ValidDisk(cfg, d)
    && d.keyFile == p.keyFile
    && (d.container.Some? <==> p.formatted)
    && (p.formatted ==> forall slot :: SlotRep(cfg, SlotBytes(d.container.value, slot), slot, p.slots))
    && (!p.formatted ==> p.slots == map[])
  }

  lemma StoredNameIsBase(filename: Option<string>)
    ensures '/' !in StoredName(filename)
  {
  }

  /** Replacing one slot's bytes by an image of `e` turns the map's entry for that slot into `e`. */
  lemma ImageRefines(cfg: Config, image: seq<Octet>, slots: map<Slot, Entry>, slot: Slot, e: Entry, s: Sealing)
    requires |image| == cfg.size && forall t :: SlotRep(cfg, SlotBytes(image, t), t, slots)
    requires EntryFits(cfg, slot, e, s)
    ensures var after := WriteAt(image, SlotSpan(cfg.size, slot).start, SlotImage(cfg, slot, e, s));
            |after| == cfg.size && forall t :: SlotRep(cfg, SlotBytes(after, t), t, slots[slot := e])
  {
    hide SlotSpan, FitFailure, EncryptRecord, SlotImage, EntryFits, SlotBytes, WriteAt;
    var payload := SlotImage(cfg, slot, e, s);
    SlotImageFills(cfg, slot, e, s);
    var after := WriteAt(image, SlotSpan(cfg.size, slot).start, payload);
    forall t ensures SlotRep(cfg, SlotBytes(after, t), t, slots[slot := e]) {
      WriteSlotBytes(image, slot, payload, t);
      if t != slot {
        assert SlotRep(cfg, SlotBytes(image, t), t, slots);
      }
    }
    WriteSlotBytes(image, slot, payload, slot);
  }

  /** Salt, nonce and ciphertext fill the slot to its last byte. */
  lemma SlotImageFills(cfg: Config, slot: Slot, e: Entry, s: Sealing)
    requires EntryFits(cfg, slot, e, s)
    ensures |SlotImage(cfg, slot, e, s)| == SlotSpan(cfg.size, slot).len
  {
  }

  lemma WriteSlotRefines(cfg: Config, d: Disk, p: Plain, slot: Slot, password: string, data: string,
                         cue: seq<string>, filename: Option<string>, s: Sealing)
    requires Rep(cfg, d, p) && d.container.Some? && SealingOk(cfg, s)
    ensures var r := WriteSlot(cfg, d, slot, password, data, cue, filename, s);
            var q := PlainWrite(cfg, p, slot, password, data, cue, filename, s);
            Rep(cfg, r.0, q.0) && r.1 == q.1
  {
    hide FitFailure, SlotPlaintext, SlotKey, StoredName, SlotSpan, SlotRep, WriteAt, SlotBytes;
    var key := KeyForWriting(d.keyFile, s.freshKey);
    if key.Ok? && FitFailure(cfg.size, slot, StoredName(filename), |data|, s.createdAt).None? {
      var e := Entry(key.value, password, cue, data, StoredName(filename));
      StoredNameIsBase(filename);
      ImageRefines(cfg, d.container.value, p.slots, slot, e, s);
    }
  }

  /** Random fill over a span made of whole slots forgets exactly those slots. */
  lemma RandomizeRefines(cfg: Config, d: Disk, p: Plain, span: Span, fill: string, gone: set<Slot>)
    requires Rep(cfg, d, p) && d.container.Some? && Within(span, cfg.size) && |fill| >= cfg.size
    requires forall slot :: var s := SlotSpan(cfg.size, slot);
               if slot in gone then span.start <= s.start && s.End() <= span.End() else Disjoint(span, s)
    ensures Rep(cfg, RandomizeSpan(cfg, d, span, fill), Forget(p, gone))
  {
    hide SlotSpan;
    var image, payload := d.container.value, Raws(fill[..span.len]);
    var after := WriteAt(image, span.start, payload);
    forall slot ensures SlotRep(cfg, SlotBytes(after, slot), slot, p.slots - gone) {
      var s := SlotSpan(cfg.size, slot);
      if slot !in gone {
        assert SlotRep(cfg, SlotBytes(image, slot), slot, p.slots);
        WriteTouchesOnlyItsSpan(image, span.start, payload, s);
      } else {
        forall i | 0 <= i < s.len ensures SlotBytes(after, slot)[i].Raw? {
          assert SlotBytes(after, slot)[i] == after[s.start + i] == payload[s.start + i - span.start];
        }
      }
    }
  }

  lemma StoreRefines(cfg: Config, d: Disk, p: Plain, op: Op)
    requires Rep(cfg, d, p) && OpOk(cfg, op) && op.Store?
    ensures Rep(cfg, Step(cfg, d, op).0, PlainStep(cfg, p, op).0)
    ensures Step(cfg, d, op).1 == PlainStep(cfg, p, op).1
  {
    hide WriteSlot, PlainWrite, SlotRep;
    var Store(password, data, cue, filename, mode, restricted, open, purge, fill) := op;
    if d.container.Some? && restricted != Some(password) {
      WriteSlotRefines(cfg, d, p, Slot(mode, Open), password, data, cue, filename, open);
      var d1 := WriteSlot(cfg, d, Slot(mode, Open), password, data, cue, filename, open);
      var p1 := PlainWrite(cfg, p, Slot(mode, Open), password, data, cue, filename, open);
      if d1.1.None? {
        if restricted.Some? && restricted.value != "" {
          WriteSlotRefines(cfg, d1.0, p1.0, Slot(mode, Purge), restricted.value, data, cue, filename, purge);
        } else {
          RandomizeRefines(cfg, d1.0, p1.0, SlotSpan(cfg.size, Slot(mode, Purge)), fill, {Slot(mode, Purge)});
        }
      }
    }
  }

  lemma BrickRefines(cfg: Config, d: Disk, p: Plain, fill: string)
    requires Rep(cfg, d, p) && |fill| >= cfg.size
    ensures d.container.Some?
            ==> Rep(cfg, RandomizeSpan(cfg, d.(keyFile := None), Span(0, cfg.size), fill), Plain(true, None, map[]))
  {
    hide SlotRep;
    if d.container.Some? {
      var all := AllSlots();
      forall s: Slot ensures s in all { EverySlot(s); }
      RandomizeRefines(cfg, d.(keyFile := None), p.(keyFile := None), Span(0, cfg.size), fill, all);
      assert p.slots - all == map[];
    }
  }

  lemma StepRefines(cfg: Config, d: Disk, p: Plain, op: Op)
    requires Rep(cfg, d, p) && OpOk(cfg, op)
    ensures Rep(cfg, Step(cfg, d, op).0, PlainStep(cfg, p, op).0)
    ensures Step(cfg, d, op).1 == PlainStep(cfg, p, op).1
  {
    hide WriteSlot, PlainWrite, SlotRep, RandomizeSpan, Forget;
    match op
    case Format(rotate, freshKey, fill) =>
      FormatRefines(cfg, d, p, rotate, freshKey, fill);
    case Store(_, _, _, _, _, _, _, _, _) =>
      StoreRefines(cfg, d, p, op);
    case StoreOpenOnly(password, data, cue, filename, mode, open) =>
      if d.container.Some? {
        WriteSlotRefines(cfg, d, p, Slot(mode, Open), password, data, cue, filename, open);
      }
    case PurgeMode(mode, fill) =>
      PurgeRefines(cfg, d, p, mode, fill);
    case PurgeOtherMode(accessed, fill) =>
      PurgeRefines(cfg, d, p, Other(accessed), fill);
    case RotateAccessKey(_) =>
    case DestroyAccessKeys =>
    case SilentBrick(fill) =>
      BrickRefines(cfg, d, p, fill);
  }

  lemma FormatRefines(cfg: Config, d: Disk, p: Plain, rotate: bool, freshKey: string, fill: string)
    requires Rep(cfg, d, p) && |freshKey| == ACCESS_KEY_SIZE && |fill| >= cfg.size
    ensures var op := Format(rotate, freshKey, fill);
            Rep(cfg, Step(cfg, d, op).0, PlainStep(cfg, p, op).0) && Step(cfg, d, op).1 == PlainStep(cfg, p, op).1
  {
    var image := Raws(fill[..cfg.size]);
    assert forall slot :: AllRaw(SlotBytes(image, slot));
  }

  lemma PurgeRefines(cfg: Config, d: Disk, p: Plain, mode: Mode, fill: string)
    requires Rep(cfg, d, p) && |fill| >= cfg.size
    ensures d.container.Some?
            ==> Rep(cfg, RandomizeSpan(cfg, d, ModeSpan(cfg.size, mode), fill), Forget(p, ModeSlots(mode)))
  {
    if d.container.Some? {
      RandomizeRefines(cfg, d, p, ModeSpan(cfg.size, mode), fill, ModeSlots(mode));
    }
  }

  /** The slots an operation may overwrite. */
  function Touched(op: Op): set<Slot> {
    match op
    case Format(_, _, _) => AllSlots()
    case Store(_, _, _, _, mode, _, _, _, _) => ModeSlots(mode)
    case StoreOpenOnly(_, _, _, _, mode, _) => {Slot(mode, Open)}
    case PurgeMode(mode, _) => ModeSlots(mode)
    case PurgeOtherMode(accessed, _) => ModeSlots(Other(accessed))
    case RotateAccessKey(_) => {}
    case DestroyAccessKeys => {}
    case SilentBrick(_) => AllSlots()
  }

  lemma WriteSlotLeaves(cfg: Config, d: Disk, slot: Slot, password: string, data: string,
                        cue: seq<string>, filename: Option<string>, s: Sealing, other: Slot)
    requires ValidDisk(cfg, d) && d.container.Some? && SealingOk(cfg, s) && other != slot
    ensures SlotBytes(WriteSlot(cfg, d, slot, password, data, cue, filename, s).0.container.value, other)
         == SlotBytes(d.container.value, other)
  {
    hide FitFailure, SlotPlaintext, SlotKey, SlotSpan, SlotBytes;
    var after := WriteSlot(cfg, d, slot, password, data, cue, filename, s).0.container.value;
    if KeyForWriting(d.keyFile, s.freshKey).Ok? {
      var key := SlotKey(cfg, slot, Some(KeyForWriting(d.keyFile, s.freshKey).value), password, cue, Raws(s.salt));
      var sealed := EncryptRecord(cfg.size, slot, data, key, StoredName(filename), s.createdAt, Raws(s.nonce),
                                  s.padding);
      if sealed.Ok? {
        WriteSlotBytes(d.container.value, slot, Raws(s.salt) + Raws(s.nonce) + sealed.value, other);
      }
    }
  }

  lemma RandomizeLeaves(cfg: Config, d: Disk, span: Span, fill: string, other: Slot)
    requires ValidDisk(cfg, d) && d.container.Some? && Within(span, cfg.size) && |fill| >= cfg.size
    requires Disjoint(span, SlotSpan(cfg.size, other))
    ensures SlotBytes(RandomizeSpan(cfg, d, span, fill).container.value, other) == SlotBytes(d.container.value, other)
  {
    hide SlotSpan;
    WriteTouchesOnlyItsSpan(d.container.value, span.start, Raws(fill[..span.len]), SlotSpan(cfg.size, other));
  }

  /** No operation changes a byte of a slot it does not name, even when it fails. */
  lemma StepLeavesOtherSlots(cfg: Config, d: Disk, op: Op, slot: Slot)
    requires ValidDisk(cfg, d) && d.container.Some? && OpOk(cfg, op) && slot !in Touched(op)
    ensures Step(cfg, d, op).0.container.Some?
    ensures SlotBytes(Step(cfg, d, op).0.container.value, slot) == SlotBytes(d.container.value, slot)
  {
    hide WriteSlot, RandomizeSpan, SlotSpan, ModeSpan, SlotBytes;
    EverySlot(slot);
    match op
    case Store(password, data, cue, filename, mode, restricted, open, purge, fill) =>
      WriteSlotLeaves(cfg, d, Slot(mode, Open), password, data, cue, filename, open, slot);
      var first := WriteSlot(cfg, d, Slot(mode, Open), password, data, cue, filename, open).0;
      if restricted.Some? {
        WriteSlotLeaves(cfg, first, Slot(mode, Purge), restricted.value, data, cue, filename, purge, slot);
      }
      SlotsApart(cfg.size, Slot(mode, Purge), slot);
      RandomizeLeaves(cfg, first, SlotSpan(cfg.size, Slot(mode, Purge)), fill, slot);
    case StoreOpenOnly(password, data, cue, filename, mode, open) =>
      WriteSlotLeaves(cfg, d, Slot(mode, Open), password, data, cue, filename, open, slot);
    case PurgeMode(mode, fill) =>
      ModesApart(cfg.size, mode, slot);
      RandomizeLeaves(cfg, d, ModeSpan(cfg.size, mode), fill, slot);
    case PurgeOtherMode(accessed, fill) =>
      ModesApart(cfg.size, Other(accessed), slot);
      RandomizeLeaves(cfg, d, ModeSpan(cfg.size, Other(accessed)), fill, slot);
    case RotateAccessKey(_) =>
    case DestroyAccessKeys =>
  }

  /** Every run of vault operations keeps the files in step with the plain map, failures included. */
  lemma {:induction false} RunRefines(cfg: Config, d: Disk, p: Plain, ops: seq<Op>)
    requires Rep(cfg, d, p) && forall op <- ops :: OpOk(cfg, op)
    ensures Rep(cfg, Run(cfg, d, ops), PlainRun(cfg, p, ops))
    decreases |ops|
  {
    if ops != [] {
      StepRefines(cfg, d, p, ops[0]);
      RunRefines(cfg, Step(cfg, d, ops[0]).0, PlainStep(cfg, p, ops[0]).0, ops[1..]);
    }
  }

  /** A slot's bytes answer exactly what the map says of the slot. */
  lemma SlotRetrieval(cfg: Config, d: Disk, p: Plain, password: string, cue: seq<string>, slot: Slot)
    requires Rep(cfg, d, p) && d.container.Some?
    ensures RetrieveSlot(cfg, d, password, cue, slot) == PlainSlot(p, password, cue, slot)
  {
    hide FitFailure, EncryptRecord, DecryptRecord;
    var octets := SlotBytes(d.container.value, slot);
    var salt, nonce, ciphertext := octets[..SALT_SIZE], octets[SALT_SIZE..SALT_SIZE + NONCE_SIZE],
        octets[SALT_SIZE + NONCE_SIZE..];
    var local := ExistingKey(d.keyFile);
    assert SlotRep(cfg, octets, slot, p.slots);
    if local.Ok? {
      var key := SlotKey(cfg, slot, local.value, password, cue, salt);
      if slot in p.slots {
        var e := p.slots[slot];
        var s :| EntryFits(cfg, slot, e, s) && octets == SlotImage(cfg, slot, e, s);
        var k := SlotKey(cfg, slot, Some(e.accessKey), e.password, e.cue, Raws(s.salt));
        assert salt == Raws(s.salt) && nonce == Raws(s.nonce);
        RecordRoundTrip(cfg.size, slot, e.data, k, e.name, s.createdAt, Raws(s.nonce), s.padding, key, nonce, slot);
        if key == k {
          KdfSecretInjective(local.value, Some(e.accessKey), cfg.providers);
        }
      } else {
        RawNeverOpens(cfg.size, slot, ciphertext, key, nonce);
      }
    }
  }

  lemma RawNeverOpens(size: nat, slot: Slot, ciphertext: seq<Octet>, key: Key, nonce: seq<Octet>)
    requires AllRaw(ciphertext)
    ensures DecryptRecord(size, slot, ciphertext, key, nonce).None?
  {
  }

  /**
   After any run from a device with no vault, every retrieval, with any password and
   cue, returns exactly what the plain map predicts.
   */
  lemma RunRetrieval(cfg: Config, ops: seq<Op>, password: string, cue: seq<string>, mode: Mode)
    requires cfg.size >= MIN_CONTAINER_SIZE && (forall op <- ops :: OpOk(cfg, op))
    ensures Retrieve(cfg, Run(cfg, Disk(None, None), ops), password, cue, mode)
         == PlainRetrieve(PlainRun(cfg, Plain(false, None, map[]), ops), password, cue, mode)
  {
    RunRefines(cfg, Disk(None, None), Plain(false, None, map[]), ops);
    var d, p := Run(cfg, Disk(None, None), ops), PlainRun(cfg, Plain(false, None, map[]), ops);
    if d.container.Some? {
      SlotRetrieval(cfg, d, p, password, cue, Slot(mode, Open));
      SlotRetrieval(cfg, d, p, password, cue, Slot(mode, Purge));
    }
  }

  /** The cues an operation stores under come from the gate. */
  predicate GateOp(op: Op) {
    (op.Store? || op.StoreOpenOnly?) ==> GateCue(op.cue)
  }

  predicate GateEntries(p: Plain) {
    forall s | s in p.slots :: GateCue(p.slots[s].cue)
  }

  lemma WriteKeepsGateCues(cfg: Config, p: Plain, slot: Slot, password: string, data: string, cue: seq<string>,
                           filename: Option<string>, s: Sealing)
    requires GateEntries(p) && GateCue(cue)
    ensures GateEntries(PlainWrite(cfg, p, slot, password, data, cue, filename, s).0)
  {
    hide FitFailure, StoredName, GateCue;
  }

  lemma StepKeepsGateCues(cfg: Config, p: Plain, op: Op)
    requires GateEntries(p) && GateOp(op)
    ensures GateEntries(PlainStep(cfg, p, op).0)
  {
    hide PlainWrite, GateCue;
    match op
    case Store(password, data, cue, filename, mode, restricted, open, purge, _) =>
      WriteKeepsGateCues(cfg, p, Slot(mode, Open), password, data, cue, filename, open);
      var first := PlainWrite(cfg, p, Slot(mode, Open), password, data, cue, filename, open).0;
      if restricted.Some? {
        WriteKeepsGateCues(cfg, first, Slot(mode, Purge), restricted.value, data, cue, filename, purge);
      }
    case StoreOpenOnly(password, data, cue, filename, mode, open) =>
      WriteKeepsGateCues(cfg, p, Slot(mode, Open), password, data, cue, filename, open);
    case _ =>
  }

  lemma {:induction false} RunKeepsGateCues(cfg: Config, p: Plain, ops: seq<Op>)
    requires GateEntries(p) && forall op <- ops :: GateOp(op)
    ensures GateEntries(PlainRun(cfg, p, ops))
    decreases |ops|
  {
    hide PlainStep, GateEntries, GateOp;
    if ops != [] {
      StepKeepsGateCues(cfg, p, ops[0]);
      RunKeepsGateCues(cfg, PlainStep(cfg, p, ops[0]).0, ops[1..]);
    }
  }

  /** While cues come from the gate, a slot answers exactly its access key, its password and its cue. */
  lemma GateCueLookup(cfg: Config, ops: seq<Op>, password: string, cue: seq<string>, slot: Slot)
    requires (forall op <- ops :: GateOp(op)) && GateCue(cue)
    ensures var p := PlainRun(cfg, Plain(false, None, map[]), ops);
            PlainSlot(p, password, cue, slot).Some?
            <==> slot in p.slots && p.keyFile == Some(p.slots[slot].accessKey)
                 && p.slots[slot].password == password && p.slots[slot].cue == cue
  {
    hide PlainRun, GateCue;
    var p := PlainRun(cfg, Plain(false, None, map[]), ops);
    RunKeepsGateCues(cfg, Plain(false, None, map[]), ops);
    if PlainSlot(p, password, cue, slot).Some? {
      ContextInjective(password, cue, slot.mode, slot.role, p.slots[slot].password, p.slots[slot].cue, slot.mode,
                       slot.role);
    }
  }

  /** In the plain map a store that succeeds fills both slots under one access key. */
  lemma PlainStoreFills(cfg: Config, p: Plain, password: string, data: string, cue: seq<string>,
                        filename: Option<string>, mode: Mode, restricted: string, open: Sealing, purge: Sealing,
                        fill: string)
    requires var op := Store(password, data, cue, filename, mode, Some(restricted), open, purge, fill);
             restricted != "" && PlainStep(cfg, p, op).1.None?
    ensures var op := Store(password, data, cue, filename, mode, Some(restricted), open, purge, fill);
            var q := PlainStep(cfg, p, op).0;
            && p.formatted && q.formatted && restricted != password
            && q.keyFile.Some? && {Slot(mode, Open), Slot(mode, Purge)} <= q.slots.Keys
            && q.slots[Slot(mode, Open)] == Entry(q.keyFile.value, password, cue, data, StoredName(filename))
            && q.slots[Slot(mode, Purge)] == Entry(q.keyFile.value, restricted, cue, data, StoredName(filename))
  {
    hide FitFailure, StoredName;
  }

  /** The name a record is returned under: the last part of the path given, or the default when that is empty. */
  ghost predicate NamedBy(filename: Option<string>, name: string) {
    if filename.None? || filename.value == "" then name == "payload.bin"
    else exists base :: LastPart(filename.value, base) && name == if base == "" then "payload.bin" else base
  }

  lemma NameReturned(filename: Option<string>, name: string)
    requires NamedBy(filename, name)
    ensures ReturnedName(StoredName(filename)) == name
  {
    hide Basename;
    if filename.Some? && filename.value != "" {
      var base :| LastPart(filename.value, base) && name == if base == "" then "payload.bin" else base;
      BasenameIsLastPart(filename.value, base);
    } else {
      assert '/' !in DEFAULT_NAME;
      BasenameIsLastPart(DEFAULT_NAME, DEFAULT_NAME);
    }
  }

  lemma NameExists(filename: Option<string>) returns (name: string)
    ensures NamedBy(filename, name)
  {
    hide Basename;
    if filename.Some? && filename.value != "" {
      BasenameExists(filename.value);
      name := if Basename(filename.value) == "" then "payload.bin" else Basename(filename.value);
    } else {
      name := "payload.bin";
    }
  }

  /** A path's name is what follows its last slash, whatever precedes it. */
  lemma NameOfPath(dir: string, base: string)
    requires '/' !in base
    ensures NamedBy(Some(dir + "/" + base), if base == "" then "payload.bin" else base)
    ensures NamedBy(Some(base), if base == "" then "payload.bin" else base)
    ensures NamedBy(None, "payload.bin")
  {
    assert LastPart(dir + "/" + base, base);
    assert LastPart(base, base);
  }

  /**
   A store that succeeds reads back through both passwords, each naming its own role,
   under the last part of the path it was stored by.
   */
  lemma StoreThenRetrieve(cfg: Config, d: Disk, p: Plain, password: string, data: string, cue: seq<string>,
                          filename: Option<string>, mode: Mode, restricted: string, open: Sealing, purge: Sealing,
                          fill: string, name: string)
    requires Rep(cfg, d, p) && NamedBy(filename, name)
    requires var op := Store(password, data, cue, filename, mode, Some(restricted), open, purge, fill);
             OpOk(cfg, op) && restricted != "" && Step(cfg, d, op).1.None?
    ensures var op := Store(password, data, cue, filename, mode, Some(restricted), open, purge, fill);
            var after := Step(cfg, d, op).0;
            && Retrieve(cfg, after, password, cue, mode) == Ok(Some(Retrieved(data, name, Open)))
            && Retrieve(cfg, after, restricted, cue, mode) == Ok(Some(Retrieved(data, name, Purge)))
  {
    hide RetrieveSlot, SlotRep, Step, PlainStep, StoredName, ReturnedName, ContextPassword, NamedBy;
    var op := Store(password, data, cue, filename, mode, Some(restricted), open, purge, fill);
    StepRefines(cfg, d, p, op);
    NameReturned(filename, name);
    PlainStoreFills(cfg, p, password, data, cue, filename, mode, restricted, open, purge, fill);
    var after, q := Step(cfg, d, op).0, PlainStep(cfg, p, op).0;
    SlotRetrieval(cfg, after, q, password, cue, Slot(mode, Open));
    SlotRetrieval(cfg, after, q, restricted, cue, Slot(mode, Open));
    SlotRetrieval(cfg, after, q, restricted, cue, Slot(mode, Purge));
    if ContextPassword(password, cue, mode, Open) == ContextPassword(restricted, cue, mode, Open) {
      SameCueContext(password, restricted, cue, mode, Open);
    }
  }

  /** Bytes the open slot has left after the record. */
  function OpenSlack(cfg: Config, mode: Mode, filename: Option<string>, length: nat, open: Sealing): int {
    Capacity(cfg.size, Slot(mode, Open))
    - (4 + HeaderLength(Open, StoredName(filename), length, open.createdAt) + length)
  }

  /**
   `store` is not all-or-nothing. After the open slot was written it raises exactly
   when the slack of that slot, plus one where the mode's length is odd, is less
   than the one byte the restricted header is longer by (more when the second
   timestamp has more digits): with equal stamps, exactly when the record fills the
   open slot of an even mode to its last byte. The other failure needs a header of
   4 GiB.
   */
  lemma StoreFailsHalfway(cfg: Config, d: Disk, password: string, data: string, cue: seq<string>,
                          filename: Option<string>, mode: Mode, restricted: string, open: Sealing, purge: Sealing,
                          fill: string)
    requires var op := Store(password, data, cue, filename, mode, Some(restricted), open, purge, fill);
             ValidDisk(cfg, d) && OpOk(cfg, op) && d.container.Some? && restricted != "" && restricted != password
    requires KeyForWriting(d.keyFile, open.freshKey).Ok?
    requires FitFailure(cfg.size, Slot(mode, Open), StoredName(filename), |data|, open.createdAt).None?
    ensures var failure := Step(cfg, d,
                                Store(password, data, cue, filename, mode, Some(restricted), open, purge, fill)).1;
            if OpenSlack(cfg, mode, filename, |data|, open) + ModeSpan(cfg.size, mode).len % 2
               < 1 + |Text.Dec(purge.createdAt)| - |Text.Dec(open.createdAt)|
            then failure == Some(DoesNotFit)
            else failure == if HeaderLength(Purge, StoredName(filename), |data|, purge.createdAt) >= 0x1_0000_0000
                            then Some(HeaderTooLong) else None
  {
    hide HeaderLength, EncryptRecord, StoredName, SlotKey, Text.Dec;
    PurgeHeaderIsOneByteLonger(StoredName(filename), |data|, open.createdAt, purge.createdAt);
    CapacityIsPositive(cfg.size, Slot(mode, Purge));
  }

  lemma ShortHeader(role: Role, length: nat, createdAt: nat)
    requires 100 <= length < 1000 && createdAt < 10
    ensures HeaderLength(role, "a", length, createdAt) == 115 + |RoleName(role)|
  {
    hide HeaderLength, RoleName;
    HeaderLengthIs(role, "a", length, createdAt);
    assert Text.Escape("a") == "a";
    assert |Text.Dec(length / 10 / 10)| == 1 && |Text.Dec(length / 10)| == 2;
  }

  /**
   What fits the open slot of the smallest container to the last byte is one byte
   too long for its restricted slot.
   */
  lemma ExactFit(cfg: Config, mode: Mode, length: nat, createdAt: nat)
    requires cfg.size == MIN_CONTAINER_SIZE && length == 857 && createdAt == 0
    ensures FitFailure(cfg.size, Slot(mode, Open), "a", length, createdAt).None?
    ensures FitFailure(cfg.size, Slot(mode, Purge), "a", length, createdAt) == Some(DoesNotFit)
  {
    hide HeaderLength, Capacity;
    ShortHeader(Open, length, createdAt);
    ShortHeader(Purge, length, createdAt);
    SmallestCapacity(cfg.size, mode);
  }

  lemma PlainNameKept()
    ensures StoredName(Some("a")) == "a"
  {
  }

  /**
   It does happen: in a new container of the smallest size a payload of 857 bytes
   fills the open slot to its last byte. `store` raises, yet the access password
   already reads the new payload.
   */
  lemma StoreHalfDone(password: string, cue: seq<string>, mode: Mode, restricted: string, open: Sealing, purge: Sealing,
                      freshKey: string, fill: string)
    requires var cfg := Config(MIN_CONTAINER_SIZE, []);
             SealingOk(cfg, open) && SealingOk(cfg, purge) && |freshKey| == ACCESS_KEY_SIZE && |fill| >= cfg.size
    requires open.createdAt == purge.createdAt == 0 && restricted != "" && restricted != password
    ensures var cfg, data := Config(MIN_CONTAINER_SIZE, []), seq(857, _ => 'x');
            var formatted := Step(cfg, Disk(None, None), Format(false, freshKey, fill)).0;
            var store := Store(password, data, cue, Some("a"), mode, Some(restricted), open, purge, fill);
            && Step(cfg, formatted, store).1 == Some(DoesNotFit)
            && Retrieve(cfg, Step(cfg, formatted, store).0, password, cue, mode) == Ok(Some(Retrieved(data, "a", Open)))
  {
    hide SealingOk, RetrieveSlot, WriteSlot, Rep, FitFailure, StoredName;
    var cfg, data := Config(MIN_CONTAINER_SIZE, []), seq(857, _ => 'x');
    var format := Format(false, freshKey, fill);
    var store := Store(password, data, cue, Some("a"), mode, Some(restricted), open, purge, fill);
    var blank := Plain(false, None, map[]);
    NothingRep(cfg);
    StepRefines(cfg, Disk(None, None), blank, format);
    var d, p := Step(cfg, Disk(None, None), format).0, PlainStep(cfg, blank, format).0;
    StepRefines(cfg, d, p, store);
    ExactFit(cfg, mode, |data|, open.createdAt);
    PlainNameKept();
    SlotRetrieval(cfg, Step(cfg, d, store).0, PlainStep(cfg, p, store).0, password, cue, Slot(mode, Open));
  }

  /** A device with no vault is the empty map. */
  lemma NothingRep(cfg: Config)
    requires cfg.size >= MIN_CONTAINER_SIZE
    ensures Rep(cfg, Disk(None, None), Plain(false, None, map[]))
  {
  }

  // ---- without the access key ----

  /** Raw, or sealed under a secret that some access key went into. */
  ghost predicate OctetNeedsKey(cfg: Config, o: Octet) {
    o.Sealed? ==> exists k :: |k| == ACCESS_KEY_SIZE && o.key.secret == KdfSecret(Some(k), cfg.providers)
  }

  ghost predicate NeedsAccessKey(cfg: Config, octets: seq<Octet>) {
    forall i | 0 <= i < |octets| :: OctetNeedsKey(cfg, octets[i])
  }

  lemma RawNeedsNoKey(cfg: Config, o: Octet)
    requires o.Raw?
    ensures OctetNeedsKey(cfg, o)
  {
  }

  lemma SlotNeedsAccessKey(cfg: Config, octets: seq<Octet>, slot: Slot, slots: map<Slot, Entry>)
    requires SlotRep(cfg, octets, slot, slots)
    ensures NeedsAccessKey(cfg, octets)
  {
    hide FitFailure, SlotPlaintext, KdfSecret, ContextPassword;
    if slot in slots {
      var e := slots[slot];
      var s :| EntryFits(cfg, slot, e, s) && octets == SlotImage(cfg, slot, e, s);
      assert |e.accessKey| == ACCESS_KEY_SIZE;
    }
  }

  /** With no key file, such a slot opens for no password and no cue. */
  lemma KeylessSlot(cfg: Config, d: Disk, password: string, cue: seq<string>, slot: Slot)
    requires ValidDisk(cfg, d) && d.container.Some? && d.keyFile.None?
    requires NeedsAccessKey(cfg, SlotBytes(d.container.value, slot))
    ensures RetrieveSlot(cfg, d, password, cue, slot).None?
  {
    hide KdfSecret, ContextPassword, ReadRecord;
    var octets := SlotBytes(d.container.value, slot);
    var at := SALT_SIZE + NONCE_SIZE;
    var salt, ciphertext := octets[..SALT_SIZE], octets[at..];
    var key := SlotKey(cfg, slot, None, password, cue, salt);
    if ciphertext != [] && ciphertext[0].Sealed? && ciphertext[0].key == key {
      assert octets[at] == ciphertext[0] && OctetNeedsKey(cfg, octets[at]);
      var k :| |k| == ACCESS_KEY_SIZE && octets[at].key.secret == KdfSecret(Some(k), cfg.providers);
      KdfSecretInjective(None, Some(k), cfg.providers);
    }
  }

  lemma RawsNeedNoMore(cfg: Config, image: seq<Octet>, raws: seq<Octet>, slot: Slot)
    requires |raws| <= |image| && AllRaw(raws) && NeedsAccessKey(cfg, SlotBytes(image, slot))
    ensures NeedsAccessKey(cfg, SlotBytes(WriteAt(image, 0, raws), slot))
  {
    hide SlotSpan, OctetNeedsKey, SlotBytes, WriteAt;
    var before, after := SlotBytes(image, slot), SlotBytes(WriteAt(image, 0, raws), slot);
    forall i | 0 <= i < |after| ensures OctetNeedsKey(cfg, after[i]) {
      var at := SlotSpan(|image|, slot).start + i;
      SlotByteAt(image, slot, i);
      SlotByteAt(WriteAt(image, 0, raws), slot, i);
      WriteAtFront(image, raws, at);
      if at < |raws| {
        RawNeedsNoKey(cfg, after[i]);
      } else {
        assert after[i] == before[i];
      }
    }
  }

  /**
   Once the access key is gone, no password and no cue retrieve anything, however far
   the overwrite of the container has come: at no byte of it, nor before its start.
   */
  lemma NothingWithoutAccessKey(cfg: Config, d: Disk, p: Plain, fill: string, done: nat, password: string,
                                cue: seq<string>, mode: Mode)
    requires Rep(cfg, d, p) && d.container.Some? && done <= cfg.size <= |fill|
    ensures var cut := RandomizeSpan(cfg, Step(cfg, d, DestroyAccessKeys).0, Span(0, done), fill);
            Retrieve(cfg, cut, password, cue, mode) == Ok(None)
    ensures RandomizeSpan(cfg, Step(cfg, d, DestroyAccessKeys).0, Span(0, cfg.size), fill)
            == Step(cfg, d, SilentBrick(fill)).0
  {
    hide RetrieveSlot, SlotRep, NeedsAccessKey, SlotBytes;
    var before, after := d.container.value, WriteAt(d.container.value, 0, Raws(fill[..done]));
    forall slot ensures NeedsAccessKey(cfg, SlotBytes(after, slot)) {
      assert SlotRep(cfg, SlotBytes(before, slot), slot, p.slots);
      SlotNeedsAccessKey(cfg, SlotBytes(before, slot), slot, p.slots);
      RawsNeedNoMore(cfg, before, Raws(fill[..done]), slot);
    }
    var cut := RandomizeSpan(cfg, Step(cfg, d, DestroyAccessKeys).0, Span(0, done), fill);
    KeylessSlot(cfg, cut, password, cue, Slot(mode, Open));
    KeylessSlot(cfg, cut, password, cue, Slot(mode, Purge));
  }
}
