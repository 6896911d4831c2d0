/** The vault object: its methods seek and overwrite the container file in place. */
module PhasmidVault {
  import opened Wrappers
  import opened KeyContext
  import opened ContainerLayout
  import opened RecordCipher
  import opened Vault

  class PhasmidVault {
    const cfg: Config
    var container: Option<seq<Octet>>
    var keyFile: Option<string>

    function Files(): Disk
      reads this
    {
      Disk(container, keyFile)
    }

    predicate Valid()
      reads this
    {
      ValidDisk(cfg, Files())
    }

    constructor (cfg: Config, files: Disk)
      requires ValidDisk(cfg, files)
      ensures Valid() && this.cfg == cfg && Files() == files
    {
      this.cfg, container, keyFile := cfg, files.container, files.keyFile;
    }

    /** Fills `length` bytes from offset `start`, a chunk at a time. */
    method WriteRandom(start: nat, length: nat, fill: string)
      requires container.Some? && start <= |container.value| && length <= |fill|
      modifies this`container
      ensures container == Some(WriteAt(old(container.value), start, Raws(fill[..length])))
    {
      ghost var before := container.value;
      assert Raws(fill[..0]) == [];
      assert WriteAt(before, start, Raws(fill[..0])) == before;
      var remaining := length;
      while remaining > 0
        invariant 0 <= remaining <= length
        invariant container == Some(WriteAt(before, start, Raws(fill[..length - remaining])))
      {
        var block := if remaining < RANDOM_CHUNK then remaining else RANDOM_CHUNK;
        var done := length - remaining;
        WritesCompose(before, start, Raws(fill[..done]), Raws(fill[done..done + block]));
        assert Raws(fill[..done]) + Raws(fill[done..done + block]) == Raws(fill[..done + block]);
        container := Some(WriteAt(container.value, start + done, Raws(fill[done..done + block])));
        remaining := remaining - block;
      }
    }

    /** The access key, created from `newKey` when the file is missing; None is the invalid-length error. */
    method LoadOrCreateAccessKey(newKey: string) returns (key: Option<string>)
      modifies this`keyFile
      ensures var r := KeyForWriting(old(keyFile), newKey);
              if r.Ok? then key == Some(r.value) == keyFile else key.None? && keyFile == old(keyFile)
    {
      if keyFile.Some? {
        return if |keyFile.value| == ACCESS_KEY_SIZE then keyFile else None;
      }
      keyFile := Some(newKey);
      return keyFile;
    }

    method FormatContainer(rotate: bool, newKey: string, fill: string) returns (failure: Option<Failure>)
      requires Valid() && OpOk(cfg, Format(rotate, newKey, fill))
      modifies this
      ensures Valid() && (Files(), failure) == Step(cfg, old(Files()), Format(rotate, newKey, fill))
    {
      if rotate {
        RotateKey(newKey);
      } else {
        var key := LoadOrCreateAccessKey(newKey);
        if key.None? {
          return Some(BadAccessKey);
        }
      }
      container := Some([]);
      WriteRandom(0, cfg.size, fill);
      assert WriteAt([], 0, Raws(fill[..cfg.size])) == Raws(fill[..cfg.size]);
      return None;
    }

    method RotateKey(newKey: string)
      requires Valid() && |newKey| == ACCESS_KEY_SIZE
      modifies this`keyFile
      ensures Valid() && (Files(), None) == Step(cfg, old(Files()), RotateAccessKey(newKey))
    {
      keyFile := None;
      keyFile := Some(newKey);
    }

    method DestroyKeys()
      requires Valid()
      modifies this`keyFile
      ensures Valid() && (Files(), None) == Step(cfg, old(Files()), DestroyAccessKeys)
    {
      if keyFile.Some? {
        keyFile := None;
      }
    }

    /** Extends a payload shorter than its span with random bytes. */
    method PadTo(payload: seq<Octet>, length: nat, fill: string) returns (padded: seq<Octet>)
      requires length <= |fill|
      ensures padded == if |payload| < length then payload + Raws(fill[..length - |payload|]) else payload
    {
      padded := payload;
      var paddingLen := length - |payload|;
      if paddingLen > 0 {
        padded := padded + Raws(fill[..paddingLen]);
      }
    }

    /** Derives, seals and writes one slot; the record fills the span, so no padding is ever appended. */
    method WriteOne(password: string, data: string, cue: seq<string>, filename: Option<string>, slot: Slot, s: Sealing)
      returns (failure: Option<Failure>)
      requires Valid() && container.Some? && SealingOk(cfg, s)
      modifies this
      ensures Valid() && (Files(), failure) == WriteSlot(cfg, old(Files()), slot, password, data, cue, filename, s)
    {
      hide FitFailure, SlotPlaintext;
      var span := SlotSpan(cfg.size, slot);
      var local := LoadOrCreateAccessKey(s.freshKey);
      if local.None? {
        return Some(BadAccessKey);
      }
      var secret := BuildKdfSecret(local, cfg.providers);
      var key := Derived(Raws(s.salt), secret, ContextPassword(password, cue, slot.mode, slot.role));
      var sealed := EncryptRecord(cfg.size, slot, data, key, StoredName(filename), s.createdAt, Raws(s.nonce),
                                  s.padding);
      if sealed.Err? {
        return Some(sealed.reason);
      }
      var payload := PadTo(Raws(s.salt) + Raws(s.nonce) + sealed.value, span.len, s.padding);
      container := Some(WriteAt(container.value, span.start, payload));
      return None;
    }

    method Store(password: string, data: string, cue: seq<string>, filename: Option<string>, mode: Mode,
                 restricted: Option<string>, open: Sealing, purge: Sealing, fill: string)
      returns (failure: Option<Failure>)
      requires Valid() && OpOk(cfg, Op.Store(password, data, cue, filename, mode, restricted, open, purge, fill))
      modifies this
      ensures Valid()
      ensures (Files(), failure)
           == Step(cfg, old(Files()), Op.Store(password, data, cue, filename, mode, restricted, open, purge, fill))
    {
      hide WriteSlot;
      if container.None? {
        return Some(NoContainer);
      }
      if restricted == Some(password) {
        return Some(SamePassword);
      }
      failure := WriteOne(password, data, cue, filename, Slot(mode, Open), open);
      if failure.Some? {
        return;
      }
      if restricted.Some? && restricted.value != "" {
        failure := WriteOne(restricted.value, data, cue, filename, Slot(mode, Role.Purge), purge);
      } else {
        var span := SlotSpan(cfg.size, Slot(mode, Role.Purge));
        WriteRandom(span.start, span.len, fill);
      }
    }

    method StoreOpen(password: string, data: string, cue: seq<string>, filename: Option<string>, mode: Mode,
                     open: Sealing)
      returns (failure: Option<Failure>)
      requires Valid() && OpOk(cfg, StoreOpenOnly(password, data, cue, filename, mode, open))
      modifies this
      ensures Valid()
      ensures (Files(), failure) == Step(cfg, old(Files()), StoreOpenOnly(password, data, cue, filename, mode, open))
    {
      hide WriteSlot;
      if container.None? {
        return Some(NoContainer);
      }
      failure := WriteOne(password, data, cue, filename, Slot(mode, Open), open);
    }

    method PurgeOne(mode: Mode, fill: string) returns (failure: Option<Failure>)
      requires Valid() && OpOk(cfg, PurgeMode(mode, fill))
      modifies this
      ensures Valid() && (Files(), failure) == Step(cfg, old(Files()), PurgeMode(mode, fill))
    {
      if container.None? {
        return Some(NoContainer);
      }
      var span := ModeSpan(cfg.size, mode);
      WriteRandom(span.start, span.len, fill);
      return None;
    }

    method PurgeOther(accessed: Mode, fill: string) returns (failure: Option<Failure>)
      requires Valid() && OpOk(cfg, PurgeOtherMode(accessed, fill))
      modifies this
      ensures Valid() && (Files(), failure) == Step(cfg, old(Files()), PurgeOtherMode(accessed, fill))
    {
      if accessed == Dummy {
        failure := PurgeOne(Secret, fill);
      } else {
        failure := PurgeOne(Dummy, fill);
      }
    }

    /** Keys go first, so a container already missing still loses its access key. */
    method Brick(fill: string) returns (failure: Option<Failure>)
      requires Valid() && OpOk(cfg, SilentBrick(fill))
      modifies this
      ensures Valid() && (Files(), failure) == Step(cfg, old(Files()), SilentBrick(fill))
    {
      DestroyKeys();
      if container.None? {
        return Some(NoContainer);
      }
      WriteRandom(0, cfg.size, fill);
      return None;
    }

    /** Tries the open slot, then the restricted one. */
    method RetrieveWithPolicy(password: string, cue: seq<string>, mode: Mode)
      returns (r: Result<Option<Retrieved>, Failure>)
      requires Valid()
      ensures r == Retrieve(cfg, Files(), password, cue, mode)
    {
      hide RetrieveSlot;
      if container.None? {
        return Err(NoContainer);
      }
      var roles := [Role.Open, Role.Purge];
      for i := 0 to 2
        invariant i > 0 ==> RetrieveSlot(cfg, Files(), password, cue, Slot(mode, Open)).None?
        invariant i > 1 ==> RetrieveSlot(cfg, Files(), password, cue, Slot(mode, Role.Purge)).None?
      {
        var found := RetrieveSlot(cfg, Files(), password, cue, Slot(mode, roles[i]));
        if found.Some? {
          return Ok(Some(Retrieved(found.value.0, found.value.1, roles[i])));
        }
      }
      return Ok(None);
    }
  }
}
