/**
 The encrypted record of record_cypher.py. AES-GCM and Argon2id are ideal: a key
 is the term it was derived from, and an octet of ciphertext carries the key,
 nonce, associated data and plaintext it came from, so only the exact ciphertext
 opens and only under what sealed it. Random bytes are raw octets.
 */
module RecordCipher {
  import opened Wrappers
  import opened Text
  import opened KeyContext
  import opened ContainerLayout

  const SALT_SIZE: nat := 16
  const NONCE_SIZE: nat := 12
  const TAG_SIZE: nat := 16
  const DEFAULT_NAME := "payload.bin"

  datatype Key = Derived(salt: seq<Octet>, secret: string, context: string)

  datatype Octet =
    | Raw(b: char)
    | Sealed(key: Key, nonce: seq<Octet>, aad: string, plaintext: string, index: nat)

  function Raws(s: string): (r: seq<Octet>)
    ensures |r| == |s|
    ensures forall i | 0 <= i < |r| :: r[i].Raw?
  {
    seq(|s|, i requires 0 <= i < |s| => Raw(s[i]))
  }

  function Seal(key: Key, nonce: seq<Octet>, plaintext: string, aad: string): (r: seq<Octet>)
    ensures |r| == |plaintext| + TAG_SIZE
    ensures forall i | 0 <= i < |r| :: r[i] == Sealed(key, nonce, aad, plaintext, i)
  {
    seq(|plaintext| + TAG_SIZE, i requires 0 <= i => Sealed(key, nonce, aad, plaintext, i))
  }

  function Unseal(key: Key, nonce: seq<Octet>, ciphertext: seq<Octet>, aad: string): Option<string> {
    if ciphertext != [] && ciphertext[0].Sealed?
       && ciphertext == Seal(key, nonce, ciphertext[0].plaintext, aad)
    then Some(ciphertext[0].plaintext)
    else None
  }

  /** The ideal cipher: opening inverts sealing, and nothing else opens. */
  lemma UnsealExactly(key: Key, nonce: seq<Octet>, aad: string, k: Key, n: seq<Octet>, a: string, p: string)
    ensures Unseal(key, nonce, Seal(k, n, p, a), aad)
         == if key == k && nonce == n && aad == a then Some(p) else None
  {
    var c := Seal(k, n, p, a);
    assert c[0] == Sealed(k, n, a, p, 0);
    assert Seal(key, nonce, p, aad)[0] == Sealed(key, nonce, aad, p, 0);
  }

  // ---- framing ----

  function Pack4(n: nat): (s: string)
    requires n < 0x1_0000_0000
    ensures |s| == 4
  {
    [(n / 256 / 256 / 256) as char, (n / 256 / 256 % 256) as char, (n / 256 % 256) as char, (n % 256) as char]
  }

  function Unpack4(s: string): nat
    requires |s| == 4
  {
    ((s[0] as int * 256 + s[1] as int) * 256 + s[2] as int) * 256 + s[3] as int
  }

  lemma UnpackInvertsPack(n: nat)
    requires n < 0x1_0000_0000
    ensures Unpack4(Pack4(n)) == n
  {
  }

  /** The fields of a record's JSON metadata that vary; format, version and KDF name are fixed text. */
  datatype Header = Header(role: Role, filename: string, payloadLen: nat, createdAt: nat)

  const HEADER_START := "{\"format\":\"jes-v3\",\"version\":3,\"password_role\":\""
  const KEY_FILENAME := "\",\"filename\":\""
  const KEY_LENGTH := ",\"payload_len\":"
  const KEY_CREATED := ",\"created_at\":"
  const HEADER_END := ",\"kdf\":\"argon2id\"}"

  /** Compact JSON, keys in insertion order, non-ASCII text left as it is. */
  function Dumps(h: Header): string {
    HEADER_START + (RoleName(h.role) + (KEY_FILENAME + (Escape(h.filename) + "\"" + DumpsNumbers(h))))
  }

  function DumpsNumbers(h: Header): string {
    KEY_LENGTH + (Dec(h.payloadLen) + (KEY_CREATED + (Dec(h.createdAt) + HEADER_END)))
  }

  function ReadRole(s: string): Option<(Role, string)> {
    if RoleName(Open) <= s then Some((Open, s[|RoleName(Open)|..]))
    else if RoleName(Purge) <= s then Some((Purge, s[|RoleName(Purge)|..]))
    else None
  }

  function ReadText(key: string, s: string): Option<(string, string)> {
    var rest := Expect(key, s);
    if rest.None? then None else ParseString(rest.value)
  }

  function ReadNumber(key: string, s: string): Option<(nat, string)> {
    var rest := Expect(key, s);
    if rest.None? then None else ParseNat(rest.value)
  }

  /**
   The loader and the format and version checks, on the one spelling of a header
   that this program ever seals.
   */
  function Loads(s: string): Option<Header> {
    var start := Expect(HEADER_START, s);
    if start.None? then None else
    var role := ReadRole(start.value);
    if role.None? then None else
    var filename := ReadText(KEY_FILENAME, role.value.1);
    if filename.None? then None else
    var length := ReadNumber(KEY_LENGTH, filename.value.1);
    if length.None? then None else
    var created := ReadNumber(KEY_CREATED, length.value.1);
    if created.None? || created.value.1 != HEADER_END then None
    else Some(Header(role.value.0, filename.value.0, length.value.0, created.value.0))
  }

  lemma ReadTextInverts(key: string, value: string, rest: string)
    ensures ReadText(key, key + (Escape(value) + "\"" + rest)) == Some((value, rest))
  {
    ExpectLiteral(key, Escape(value) + "\"" + rest);
    ParseStringInvertsEscape(value, rest);
  }

  lemma ReadNumberInverts(key: string, value: nat, rest: string)
    requires rest != "" && !IsDigit(rest[0])
    ensures ReadNumber(key, key + (Dec(value) + rest)) == Some((value, rest))
  {
    ExpectLiteral(key, Dec(value) + rest);
    ParseNatInvertsDec(value, rest);
  }

  lemma ReadRoleInverts(role: Role, rest: string)
    ensures ReadRole(RoleName(role) + rest) == Some((role, rest))
  {
    ExpectLiteral(RoleName(role), rest);
    assert (RoleName(role) + rest)[0] == RoleName(role)[0];
  }

  lemma LoadsInvertsDumps(h: Header)
    ensures Loads(Dumps(h)) == Some(h)
  {
    var name := KEY_FILENAME + (Escape(h.filename) + "\"" + DumpsNumbers(h));
    ExpectLiteral(HEADER_START, RoleName(h.role) + name);
    ReadRoleInverts(h.role, name);
    ReadTextInverts(KEY_FILENAME, h.filename, DumpsNumbers(h));
    var created := KEY_CREATED + (Dec(h.createdAt) + HEADER_END);
    ReadNumberInverts(KEY_LENGTH, h.payloadLen, created);
    ReadNumberInverts(KEY_CREATED, h.createdAt, HEADER_END);
  }

  /** os.path.basename: what follows the last slash. */
  function Basename(s: string): (r: string)
    ensures '/' !in r
    ensures '/' !in s ==> r == s
    decreases |s|
  {
    if s == "" || s[|s| - 1] == '/' then "" else Basename(s[..|s| - 1]) + [s[|s| - 1]]
  }

  /** `base` is what a path has after its last slash, or all of a path without one. */
  predicate LastPart(path: string, base: string) {
    && '/' !in base && |base| <= |path| && path[|path| - |base|..] == base
    && (|base| == |path| || path[|path| - |base| - 1] == '/')
  }

  lemma {:induction false} BasenameAfterSlash(dir: string, base: string)
    requires '/' !in base
    ensures Basename(dir + "/" + base) == base
    decreases |base|
  {
    var path, m := dir + "/" + base, |base| - 1;
    if base == "" {
      assert path[|path| - 1] == '/';
    } else {
      assert base == base[..m] + [base[m]] && base[m] in base;
      assert path[..|path| - 1] == dir + "/" + base[..m] && path[|path| - 1] == base[m];
      BasenameAfterSlash(dir, base[..m]);
    }
  }

  lemma BasenameIsLastPart(path: string, base: string)
    requires LastPart(path, base)
    ensures Basename(path) == base
  {
    hide Basename;
    if |base| < |path| {
      var dir := path[..|path| - |base| - 1];
      assert path == dir + "/" + base;
      BasenameAfterSlash(dir, base);
    } else {
      assert path == base;
    }
  }

  /** Every path has its last part. */
  lemma BasenameExists(path: string)
    ensures LastPart(path, Basename(path))
    decreases |path|
  {
    if path != "" && path[|path| - 1] != '/' {
      BasenameExists(path[..|path| - 1]);
    }
  }

  function StoredName(filename: Option<string>): string {
    Basename(if filename.None? || filename.value == "" then DEFAULT_NAME else filename.value)
  }

  function ReturnedName(stored: string): string {
    if stored == "" then DEFAULT_NAME else stored
  }

  function HeaderLength(role: Role, name: string, length: nat, createdAt: nat): nat {
    |Dumps(Header(role, name, length, createdAt))|
  }

  /** The reason `store` is not all-or-nothing: the restricted copy's header is one byte longer. */
  lemma PurgeHeaderIsOneByteLonger(name: string, length: nat, openAt: nat, purgeAt: nat)
    ensures HeaderLength(Purge, name, length, purgeAt)
            == HeaderLength(Open, name, length, openAt) + 1 + |Dec(purgeAt)| - |Dec(openAt)|
  {
    HeaderLengthIs(Open, name, length, openAt);
    HeaderLengthIs(Purge, name, length, purgeAt);
  }

  lemma HeaderLengthIs(role: Role, name: string, length: nat, createdAt: nat)
    ensures HeaderLength(role, name, length, createdAt)
         == |HEADER_START| + |RoleName(role)| + |KEY_FILENAME| + |Escape(name)| + 1 + |KEY_LENGTH| + |Dec(length)|
            + |KEY_CREATED| + |Dec(createdAt)| + |HEADER_END|
  {
  }

  function Aad(size: nat, slot: Slot): string {
    "phasmid-record-v3:" + ModeName(slot.mode) + ":" + RoleName(slot.role) + ":" + Dec(size)
  }

  datatype Failure = NoContainer | SamePassword | BadAccessKey | TooSmall | DoesNotFit | HeaderTooLong

  /** What the code checks before sealing, in its order. */
  function FitFailure(size: nat, slot: Slot, name: string, length: nat, createdAt: nat): Option<Failure> {
    var header := HeaderLength(slot.role, name, length, createdAt);
    if Capacity(size, slot) <= 4 then Some(TooSmall)
    else if 4 + header + length > Capacity(size, slot) then Some(DoesNotFit)
    else if header >= 0x1_0000_0000 then Some(HeaderTooLong)
    else None
  }

  function RecordPlaintext(h: Header, data: string, padding: string): string
    requires |Dumps(h)| < 0x1_0000_0000
  {
    Pack4(|Dumps(h)|) + Dumps(h) + data + padding
  }

  /** Header, payload and random fill, filling the slot's plaintext capacity exactly. */
  function SlotPlaintext(size: nat, slot: Slot, data: string, name: string, createdAt: nat,
                         padding: string): (p: string)
    requires |padding| >= Capacity(size, slot)
    requires FitFailure(size, slot, name, |data|, createdAt).None?
    ensures |p| == Capacity(size, slot)
  {
    var h := Header(slot.role, name, |data|, createdAt);
    RecordPlaintext(h, data, padding[..Capacity(size, slot) - (4 + |Dumps(h)| + |data|)])
  }

  /** The ciphertext of a record, or the exception; `padding` supplies the random fill. */
  function EncryptRecord(size: nat, slot: Slot, data: string, key: Key, name: string,
                         createdAt: nat, nonce: seq<Octet>, padding: string): (r: Result<seq<Octet>, Failure>)
    requires |padding| >= Capacity(size, slot)
    ensures r.Ok? ==> |r.value| == SlotSpan(size, slot).len - SALT_SIZE - NONCE_SIZE
    ensures var failure := FitFailure(size, slot, name, |data|, createdAt);
            if r.Err? then failure == Some(r.reason) else failure.None?
  {
    var failure := FitFailure(size, slot, name, |data|, createdAt);
    if failure.Some? then Err(failure.value)
    else Ok(Seal(key, nonce, SlotPlaintext(size, slot, data, name, createdAt, padding), Aad(size, slot)))
  }

  /** The plaintext's payload and name after every check; None stands for any of the exceptions. */
  function ReadRecord(plaintext: string, role: Role): Option<(string, string)> {
    if |plaintext| < 4 then None else
    var metaLen := Unpack4(plaintext[..4]);
    if metaLen > |plaintext| - 4 then None else
    var loaded := Loads(plaintext[4..4 + metaLen]);
    if loaded.None? then None else
    var h := loaded.value;
    if h.role != role then None else
    var start := 4 + metaLen;
    if start + h.payloadLen > |plaintext| then None
    else Some((plaintext[start..start + h.payloadLen], Basename(ReturnedName(h.filename))))
  }

  function DecryptRecord(size: nat, slot: Slot, ciphertext: seq<Octet>, key: Key,
                         nonce: seq<Octet>): Option<(string, string)> {
    var plaintext := Unseal(key, nonce, ciphertext, Aad(size, slot));
    if plaintext.None? then None else ReadRecord(plaintext.value, slot.role)
  }

  /** Reading a frame whose metadata text is `t`, whatever `t` spells. */
  lemma ReadFrame(t: string, h: Header, data: string, padding: string, role: Role)
    requires |t| < 0x1_0000_0000 && Loads(t) == Some(h)
    requires h.role == role && h.payloadLen == |data|
    ensures ReadRecord(Pack4(|t|) + t + data + padding, role) == Some((data, Basename(ReturnedName(h.filename))))
  {
    hide Loads;
    var p := Pack4(|t|) + t + data + padding;
    assert p[..4] == Pack4(|t|);
    UnpackInvertsPack(|t|);
    assert p[4..4 + |t|] == t;
    assert p[4 + |t|..4 + |t| + |data|] == data;
  }

  lemma ReturnedNameIsBase(name: string)
    requires '/' !in name
    ensures Basename(ReturnedName(name)) == ReturnedName(name)
  {
  }

  lemma ReadRecordInverts(h: Header, role: Role, data: string, padding: string)
    requires |Dumps(h)| < 0x1_0000_0000 && '/' !in h.filename
    requires h.role == role && h.payloadLen == |data|
    ensures ReadRecord(RecordPlaintext(h, data, padding), role) == Some((data, ReturnedName(h.filename)))
  {
    LoadsInvertsDumps(h);
    ReturnedNameIsBase(h.filename);
    ReadFrame(Dumps(h), h, data, padding, role);
  }

  /** A sealed record opens to its payload under exactly the key, nonce and slot that sealed it. */
  lemma RecordRoundTrip(size: nat, slot: Slot, data: string, k: Key, name: string, createdAt: nat,
                        n: seq<Octet>, padding: string, key: Key, nonce: seq<Octet>, other: Slot)
    requires |padding| >= Capacity(size, slot)
    requires '/' !in name
    requires FitFailure(size, slot, name, |data|, createdAt).None?
    ensures DecryptRecord(size, other, EncryptRecord(size, slot, data, k, name, createdAt, n, padding).value, key,
                          nonce)
         == if key == k && nonce == n && other == slot then Some((data, ReturnedName(name))) else None
  {
    SlotPlaintextReads(size, slot, data, name, createdAt, padding);
    OpenSealed(size, slot, k, n, SlotPlaintext(size, slot, data, name, createdAt, padding), key, nonce, other);
  }

  lemma SlotPlaintextReads(size: nat, slot: Slot, data: string, name: string, createdAt: nat, padding: string)
    requires |padding| >= Capacity(size, slot) && '/' !in name
    requires FitFailure(size, slot, name, |data|, createdAt).None?
    ensures ReadRecord(SlotPlaintext(size, slot, data, name, createdAt, padding), slot.role)
            == Some((data, ReturnedName(name)))
  {
    hide ReadRecord;
    var h := Header(slot.role, name, |data|, createdAt);
    ReadRecordInverts(h, slot.role, data, padding[..Capacity(size, slot) - (4 + |Dumps(h)| + |data|)]);
  }

  lemma OpenSealed(size: nat, slot: Slot, k: Key, n: seq<Octet>, p: string, key: Key, nonce: seq<Octet>, other: Slot)
    ensures DecryptRecord(size, other, Seal(k, n, p, Aad(size, slot)), key, nonce)
         == if key == k && nonce == n && other == slot then ReadRecord(p, slot.role) else None
  {
    UnsealExactly(key, nonce, Aad(size, other), k, n, Aad(size, slot), p);
    AadSeparatesSlots(size, slot, other);
  }

  lemma AadSeparatesSlots(size: nat, a: Slot, b: Slot)
    ensures Aad(size, a) == Aad(size, b) <==> a == b
  {
    var x, y := Aad(size, a), Aad(size, b);
    if x == y {
      assert x[18] == ModeName(a.mode)[0] && y[18] == ModeName(b.mode)[0];
      var i := 18 + |ModeName(a.mode)| + 1;
      assert x[i] == RoleName(a.role)[0];
      assert y[18 + |ModeName(b.mode)| + 1] == RoleName(b.role)[0];
    }
  }
}
