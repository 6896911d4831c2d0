/**
 What each vault operation does, in terms of what can be read back before and after it
 (vault_core.py), and exactly when a store succeeds.
 */
module VaultLaws {
  import opened Wrappers
  import opened KeyContext
  import opened ContainerLayout
  import opened RecordCipher
  import opened Vault

  /** Retrieval is the plain map's. */
  lemma Reads(cfg: Config, d: Disk, p: Plain, password: string, cue: seq<string>, mode: Mode)
    requires Rep(cfg, d, p)
    ensures Retrieve(cfg, d, password, cue, mode) == PlainRetrieve(p, password, cue, mode)
  {
    hide SlotRep, RetrieveSlot, PlainSlot;
    if d.container.Some? {
      SlotRetrieval(cfg, d, p, password, cue, Slot(mode, Open));
      SlotRetrieval(cfg, d, p, password, cue, Slot(mode, Purge));
    }
  }

  /** Formatting forgets everything. */
  lemma FormatForgets(cfg: Config, d: Disk, p: Plain, rotate: bool, freshKey: string, fill: string,
                      password: string, cue: seq<string>, mode: Mode)
    requires Rep(cfg, d, p) && OpOk(cfg, Format(rotate, freshKey, fill))
    ensures var after := Step(cfg, d, Format(rotate, freshKey, fill));
            if !rotate && d.keyFile.Some? && |d.keyFile.value| != 32 then after == (d, Some(BadAccessKey))
            else && after.1.None? && Retrieve(cfg, after.0, password, cue, mode) == Ok(None)
                 && after.0.keyFile == if rotate || d.keyFile.None? then Some(freshKey) else d.keyFile
  {
    hide SlotRep, RetrieveSlot;
    var op := Format(rotate, freshKey, fill);
    StepRefines(cfg, d, p, op);
    Reads(cfg, Step(cfg, d, op).0, PlainStep(cfg, p, op).0, password, cue, mode);
  }

  /** Purging a mode empties it, and leaves the other as it was. */
  lemma PurgeForgets(cfg: Config, d: Disk, p: Plain, purged: Mode, fill: string, password: string, cue: seq<string>,
                     mode: Mode)
    requires Rep(cfg, d, p) && OpOk(cfg, PurgeMode(purged, fill)) && d.container.Some?
    ensures var after := Step(cfg, d, PurgeMode(purged, fill));
            && after.1.None? && after.0.keyFile == d.keyFile
            && Retrieve(cfg, after.0, password, cue, mode)
               == if mode == purged then Ok(None) else Retrieve(cfg, d, password, cue, mode)
  {
    hide SlotRep, RetrieveSlot, Retrieve;
    var op := PurgeMode(purged, fill);
    StepRefines(cfg, d, p, op);
    Reads(cfg, d, p, password, cue, mode);
    Reads(cfg, Step(cfg, d, op).0, PlainStep(cfg, p, op).0, password, cue, mode);
  }

  /** Purging the other mode keeps the one accessed and empties the one not. */
  lemma PurgeOtherForgets(cfg: Config, d: Disk, p: Plain, accessed: Mode, fill: string, password: string,
                          cue: seq<string>, mode: Mode)
    requires Rep(cfg, d, p) && OpOk(cfg, PurgeOtherMode(accessed, fill)) && d.container.Some?
    ensures var after := Step(cfg, d, PurgeOtherMode(accessed, fill));
            && after.1.None? && after.0.keyFile == d.keyFile
            && Retrieve(cfg, after.0, password, cue, mode)
               == if mode == accessed then Retrieve(cfg, d, password, cue, mode) else Ok(None)
  {
    hide SlotRep, RetrieveSlot, Retrieve;
    var op := PurgeOtherMode(accessed, fill);
    StepRefines(cfg, d, p, op);
    Reads(cfg, d, p, password, cue, mode);
    Reads(cfg, Step(cfg, d, op).0, PlainStep(cfg, p, op).0, password, cue, mode);
  }

  /** Under a key no record was written with nothing reads; with the old key back everything does again. */
  lemma RotationLocks(cfg: Config, d: Disk, p: Plain, freshKey: string, password: string, cue: seq<string>, mode: Mode)
    requires Rep(cfg, d, p) && OpOk(cfg, RotateAccessKey(freshKey)) && d.container.Some?
    requires forall s | s in p.slots :: p.slots[s].accessKey != freshKey
    ensures var after := Step(cfg, d, RotateAccessKey(freshKey));
            && after == (Disk(d.container, Some(freshKey)), None)
            && Retrieve(cfg, after.0, password, cue, mode) == Ok(None)
            && (d.keyFile.Some? && |d.keyFile.value| == 32 ==>
                  Step(cfg, after.0, RotateAccessKey(d.keyFile.value)) == (d, None))
  {
    hide SlotRep, RetrieveSlot, ContextPassword;
    var op := RotateAccessKey(freshKey);
    StepRefines(cfg, d, p, op);
    Reads(cfg, Step(cfg, d, op).0, PlainStep(cfg, p, op).0, password, cue, mode);
  }

  /** The other mode reads as before any store, whole or half-done, while the access key was there. */
  lemma StoreKeepsOtherMode(cfg: Config, d: Disk, p: Plain, op: Op, password: string, cue: seq<string>, mode: Mode)
    requires Rep(cfg, d, p) && OpOk(cfg, op) && d.keyFile.Some?
    requires (op.Store? || op.StoreOpenOnly?) && op.mode != mode
    ensures Retrieve(cfg, Step(cfg, d, op).0, password, cue, mode) == Retrieve(cfg, d, password, cue, mode)
  {
    hide SlotRep, RetrieveSlot, Retrieve, ContextPassword, Step, PlainStep, OpOk;
    StepRefines(cfg, d, p, op);
    PlainStoreKeeps(cfg, p, op, mode);
    Reads(cfg, d, p, password, cue, mode);
    Reads(cfg, Step(cfg, d, op).0, PlainStep(cfg, p, op).0, password, cue, mode);
  }

  lemma PlainStoreKeeps(cfg: Config, p: Plain, op: Op, mode: Mode)
    requires p.keyFile.Some? && (op.Store? || op.StoreOpenOnly?) && op.mode != mode
    ensures var q := PlainStep(cfg, p, op).0;
            && q.keyFile == p.keyFile && q.formatted == p.formatted
            && forall role ::
                 var slot := Slot(mode, role);
                 (slot in q.slots <==> slot in p.slots) && (slot in p.slots ==> q.slots[slot] == p.slots[slot])
  {
    hide FitFailure, StoredName;
  }

  /** In the plain map, what an open-only store puts in the open slot, and that the restricted slot stays. */
  lemma PlainOpenOnly(cfg: Config, p: Plain, password: string, data: string, cue: seq<string>, filename: Option<string>,
                      mode: Mode, open: Sealing)
    requires PlainStep(cfg, p, StoreOpenOnly(password, data, cue, filename, mode, open)).1.None?
    ensures var q := PlainStep(cfg, p, StoreOpenOnly(password, data, cue, filename, mode, open)).0;
            && p.formatted && q.formatted && q.keyFile.Some? && (p.keyFile.Some? ==> q.keyFile == p.keyFile)
            && q.slots == p.slots[Slot(mode, Open) := Entry(q.keyFile.value, password, cue, data, StoredName(filename))]
  {
    hide FitFailure, StoredName;
  }

  /**
   After a successful open-only store its password reads the new record as open, even if
   it is the restricted slot's password too; any other password reads the restricted
   slot as before.
   */
  lemma OpenOnlyReads(cfg: Config, d: Disk, p: Plain, password: string, data: string, cue: seq<string>,
                      filename: Option<string>, mode: Mode, open: Sealing, name: string, other: string)
    requires Rep(cfg, d, p) && NamedBy(filename, name) && d.keyFile.Some? && other != password
    requires var op := StoreOpenOnly(password, data, cue, filename, mode, open);
             OpOk(cfg, op) && Step(cfg, d, op).1.None?
    ensures var after := Step(cfg, d, StoreOpenOnly(password, data, cue, filename, mode, open)).0;
            && Retrieve(cfg, after, password, cue, mode) == Ok(Some(Retrieved(data, name, Open)))
            && RetrieveSlot(cfg, after, other, cue, Slot(mode, Open)).None?
            && RetrieveSlot(cfg, after, other, cue, Slot(mode, Purge))
               == RetrieveSlot(cfg, d, other, cue, Slot(mode, Purge))
  {
    hide SlotRep, RetrieveSlot, Step, PlainStep, StoredName, ReturnedName, ContextPassword, NamedBy;
    var op := StoreOpenOnly(password, data, cue, filename, mode, open);
    StepRefines(cfg, d, p, op);
    NameReturned(filename, name);
    PlainOpenOnly(cfg, p, password, data, cue, filename, mode, open);
    var after, q := Step(cfg, d, op).0, PlainStep(cfg, p, op).0;
    SlotRetrieval(cfg, after, q, password, cue, Slot(mode, Open));
    SlotRetrieval(cfg, after, q, other, cue, Slot(mode, Open));
    SlotRetrieval(cfg, after, q, other, cue, Slot(mode, Purge));
    SlotRetrieval(cfg, d, p, other, cue, Slot(mode, Purge));
    if ContextPassword(password, cue, mode, Open) == ContextPassword(other, cue, mode, Open) {
      SameCueContext(password, other, cue, mode, Open);
    }
  }

  /** A store without a restricted password leaves nothing to read in the restricted slot. */
  lemma StoreAloneClearsRestricted(cfg: Config, d: Disk, p: Plain, password: string, data: string, cue: seq<string>,
                                   filename: Option<string>, mode: Mode, restricted: Option<string>, open: Sealing,
                                   purge: Sealing, fill: string, any: string, anyCue: seq<string>)
    requires Rep(cfg, d, p) && (restricted.None? || restricted == Some(""))
    requires var op := Store(password, data, cue, filename, mode, restricted, open, purge, fill);
             OpOk(cfg, op) && Step(cfg, d, op).1.None?
    ensures var after := Step(cfg, d, Store(password, data, cue, filename, mode, restricted, open, purge, fill)).0;
            after.container.Some? && RetrieveSlot(cfg, after, any, anyCue, Slot(mode, Purge)).None?
  {
    hide SlotRep, RetrieveSlot, FitFailure, StoredName, ContextPassword, WriteSlot;
    var op := Store(password, data, cue, filename, mode, restricted, open, purge, fill);
    StepRefines(cfg, d, p, op);
    SlotRetrieval(cfg, Step(cfg, d, op).0, PlainStep(cfg, p, op).0, any, anyCue, Slot(mode, Purge));
  }

  /** Whether a record fits a slot: prefix, header, payload, against the slot less salt, nonce and tag. */
  predicate Fits(cfg: Config, slot: Slot, filename: Option<string>, length: nat, createdAt: nat) {
    4 + HeaderLength(slot.role, StoredName(filename), length, createdAt) + length <= SlotSpan(cfg.size, slot).len - 44
  }

  /** Why a store raises, reason by reason in the order they are found; None exactly when it succeeds. */
  lemma StoreOutcomeExactly(cfg: Config, d: Disk, password: string, data: string, cue: seq<string>,
                            filename: Option<string>, mode: Mode, restricted: Option<string>, open: Sealing,
                            purge: Sealing, fill: string)
    requires var op := Store(password, data, cue, filename, mode, restricted, open, purge, fill);
             ValidDisk(cfg, d) && OpOk(cfg, op)
    requires HeaderLength(Open, StoredName(filename), |data|, open.createdAt) < 0x1_0000_0000
    requires HeaderLength(Purge, StoredName(filename), |data|, purge.createdAt) < 0x1_0000_0000
    ensures Step(cfg, d, Store(password, data, cue, filename, mode, restricted, open, purge, fill)).1
         == if d.container.None? then Some(NoContainer)
            else if restricted == Some(password) then Some(SamePassword)
            else if d.keyFile.Some? && |d.keyFile.value| != 32 then Some(BadAccessKey)
            else if !Fits(cfg, Slot(mode, Open), filename, |data|, open.createdAt) then Some(DoesNotFit)
            else if restricted.Some? && restricted.value != ""
                    && !Fits(cfg, Slot(mode, Purge), filename, |data|, purge.createdAt) then Some(DoesNotFit)
            else None
  {
    hide HeaderLength, StoredName, SlotSpan, SlotKey, SlotPlaintext;
    CapacityIsPositive(cfg.size, Slot(mode, Open));
    CapacityIsPositive(cfg.size, Slot(mode, Purge));
  }
}
