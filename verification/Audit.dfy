/**
 The audit hash chain of audit.py. SHA-256 and HMAC are ideal: a digest or tag is
 the term it was computed from, so equal digests mean equal contents.
 */
module Audit {
  import opened Wrappers
  import Text

  type Fields = map<string, Value>

  /** JSON values of a record; the last two are the strings the hash and the HMAC print. */
  datatype Value = Num(n: int) | Str(s: string) | Digest(of: Fields) | Tag(key: string, of: Fields)

  /**
   A line of the log. A JSON value that is no object makes the verifier raise, and, when
   it is a number, a bare word or a list or text that names `entry_hash`, the appender too.
   */
  datatype Line = Blank | Malformed | NoObject(stopsAppender: bool) | Record(fields: Fields)

  const AUDIT_VERSION := Str("2.0")
  const GENESIS_HASH := Str("sha256:GENESIS")

  function Minus(r: Fields, keys: set<string>): Fields {
    r - keys
  }

  function EntryHash(r: Fields): Value {
    Digest(Minus(r, {"entry_hash", "hmac_sha256"}))
  }

  function RecordHmac(r: Fields, key: string): Value {
    Tag(key, Minus(r, {"hmac_sha256"}))
  }

  /** `str(value)` of a record field. */
  function PyStr(v: Value): Value {
    match v
    case Num(n) => Str(if n < 0 then "-" + Text.Dec(-n) else Text.Dec(n))
    case _ => v
  }

  // ---- verifier ----

  datatype Reason =
    | RecordRejected | VersionRejected | SequenceRejected | ChainRejected | HashRejected | VerifierRejected

  datatype Error = Error(line: nat, reason: Reason)

  function Field(r: Fields, key: string): Option<Value> {
    if key in r then Some(r[key]) else None
  }

  function TagText(r: Fields): Value {
    if "hmac_sha256" in r then PyStr(r["hmac_sha256"]) else Str("")
  }

  function RecordReasons(r: Fields, sequence: int, previous: Value, key: string): seq<Reason> {
    (if Field(r, "version") != Some(AUDIT_VERSION) then [VersionRejected] else [])
    + (if Field(r, "sequence") != Some(Num(sequence)) then [SequenceRejected] else [])
    + (if Field(r, "previous_hash") != Some(previous) then [ChainRejected] else [])
    + (if Field(r, "entry_hash") != Some(EntryHash(r)) then [HashRejected] else [])
    + (if TagText(r) != RecordHmac(r, key) then [VerifierRejected] else [])
  }

  function AtLine(line: nat, reasons: seq<Reason>): seq<Error> {
    seq(|reasons|, i requires 0 <= i < |reasons| => Error(line, reasons[i]))
  }

  function HashAfter(r: Fields, previous: Value): Value {
    if "entry_hash" in r then PyStr(r["entry_hash"]) else previous
  }

  /** `hmac.compare_digest` raises on text outside ASCII. */
  predicate NonAscii(v: Value) {
    v.Str? && exists c :: c in v.s && c as int >= 128
  }

  predicate LineRaises(l: Line) {
    l.NoObject? || (l.Record? && "hmac_sha256" in l.fields && NonAscii(l.fields["hmac_sha256"]))
  }

  /** The verifier ends with an exception and no verdict. */
  predicate Raises(lines: seq<Line>) {
    exists l :: l in lines && LineRaises(l)
  }

  /** The errors of the lines from number `line` on, given the state the verifier carries, when no line raises. */
  function ErrorsFrom(lines: seq<Line>, line: nat, sequence: int, previous: Value, key: string): seq<Error> {
    if lines == [] then []
    else match lines[0]
      case Blank => ErrorsFrom(lines[1..], line + 1, sequence, previous, key)
      case NoObject(_) => ErrorsFrom(lines[1..], line + 1, sequence, previous, key)
      case Malformed => [Error(line, RecordRejected)] + ErrorsFrom(lines[1..], line + 1, sequence, previous, key)
      case Record(r) =>
        AtLine(line, RecordReasons(r, sequence, previous, key))
        + ErrorsFrom(lines[1..], line + 1, sequence + 1, HashAfter(r, previous), key)
  }

  method VerifyLog(lines: seq<Line>, key: string) returns (raised: bool, ok: bool, errors: seq<Error>)
    ensures raised == Raises(lines)
    ensures !raised ==> errors == ErrorsFrom(lines, 1, 1, GENESIS_HASH, key)
    ensures ok == Verified(lines, key)
  {
    errors := [];
    var previous, sequence := GENESIS_HASH, 1;
    for i := 0 to |lines|
      invariant forall j | 0 <= j < i :: !LineRaises(lines[j])
      invariant ErrorsFrom(lines, 1, 1, GENESIS_HASH, key)
                == errors + ErrorsFrom(lines[i..], i + 1, sequence, previous, key)
    {
      assert lines[i..][0] == lines[i] && lines[i..][1..] == lines[i + 1..];
      match lines[i]
      case Blank =>
      case Malformed =>
        errors := errors + [Error(i + 1, RecordRejected)];
      case NoObject(_) =>
        assert LineRaises(lines[i]);
        return true, false, errors;
      case Record(r) =>
        if LineRaises(lines[i]) {
          return true, false, errors;
        }
        var found := AtLine(i + 1, RecordReasons(r, sequence, previous, key));
        assert errors + (found + ErrorsFrom(lines[i + 1..], i + 2, sequence + 1, HashAfter(r, previous), key))
            == (errors + found) + ErrorsFrom(lines[i + 1..], i + 2, sequence + 1, HashAfter(r, previous), key);
        errors := errors + found;
        previous := HashAfter(r, previous);
        sequence := sequence + 1;
    }
    raised, ok := false, errors == [];
  }

  /** What acceptance means for one record. */
  predicate Good(r: Fields, sequence: int, previous: Value, key: string) {
    && Field(r, "version") == Some(AUDIT_VERSION)
    && Field(r, "sequence") == Some(Num(sequence))
    && Field(r, "previous_hash") == Some(previous)
    && Field(r, "entry_hash") == Some(EntryHash(r))
    && Field(r, "hmac_sha256") == Some(RecordHmac(r, key))
  }

  lemma GoodIsNoReason(r: Fields, sequence: int, previous: Value, key: string)
    ensures RecordReasons(r, sequence, previous, key) == [] <==> Good(r, sequence, previous, key)
  {
  }

  function Records(lines: seq<Line>): seq<Fields> {
    if lines == [] then []
    else (if lines[0].Record? then [lines[0].fields] else []) + Records(lines[1..])
  }

  /** A chain of records, each good where it stands. */
  predicate Chained(records: seq<Fields>, sequence: int, previous: Value, key: string) {
    records == [] || (Good(records[0], sequence, previous, key)
                      && Chained(records[1..], sequence + 1, EntryHash(records[0]), key))
  }

  predicate Verified(lines: seq<Line>, key: string) {
    !Raises(lines) && ErrorsFrom(lines, 1, 1, GENESIS_HASH, key) == []
  }

  /** Every line is blank or a record. */
  predicate Parses(lines: seq<Line>) {
    forall l <- lines :: l.Blank? || l.Record?
  }

  lemma {:induction false} ErrorFreeIsChained(lines: seq<Line>, line: nat, sequence: int, previous: Value, key: string)
    ensures !Raises(lines) && ErrorsFrom(lines, line, sequence, previous, key) == []
       <==> Parses(lines) && Chained(Records(lines), sequence, previous, key)
  {
    hide Good, RecordReasons, LineRaises;
    if lines != [] {
      var rest := lines[1..];
      assert lines == [lines[0]] + rest;
      assert lines[0] in lines;
      assert Raises(lines) <==> LineRaises(lines[0]) || Raises(rest);
      assert Parses(lines) <==> (lines[0].Blank? || lines[0].Record?) && Parses(rest);
      LineRaisesExactly(lines[0]);
      match lines[0]
      case Blank =>
        assert Records(lines) == Records(rest);
        ErrorFreeIsChained(rest, line + 1, sequence, previous, key);
      case Malformed =>
      case NoObject(_) =>
      case Record(r) =>
        GoodIsNoReason(r, sequence, previous, key);
        assert Records(lines) == [r] + Records(rest);
        assert ([r] + Records(rest))[1..] == Records(rest);
        ErrorFreeIsChained(rest, line + 1, sequence + 1, HashAfter(r, previous), key);
        if Good(r, sequence, previous, key) {
          GoodHash(r, sequence, previous, key);
        }
    }
  }

  lemma LineRaisesExactly(l: Line)
    ensures l.Blank? || l.Malformed? ==> !LineRaises(l)
    ensures l.NoObject? ==> LineRaises(l)
  {
  }

  lemma GoodHash(r: Fields, sequence: int, previous: Value, key: string)
    requires Good(r, sequence, previous, key)
    ensures HashAfter(r, previous) == EntryHash(r) && !LineRaises(Record(r))
  {
  }

  // ---- appender ----

  datatype ChainState = ChainState(sequence: int, previous: Value)

  /** `int(value)`; None is the error on text that is no number. */
  function PyInt(v: Value): Option<int> {
    if v.Num? then Some(v.n) else None
  }

  /**
   The appender's own walk over the log; None is the error on a sequence that is no
   number, or on a value it cannot search.
   */
  function NextChainState(lines: seq<Line>, state: ChainState): Option<ChainState> {
    if lines == [] then Some(state)
    else if lines[0].NoObject? && lines[0].stopsAppender then None
    else if !lines[0].Record? || "entry_hash" !in lines[0].fields then NextChainState(lines[1..], state)
    else
      var r := lines[0].fields;
      var sequence := if "sequence" in r then PyInt(r["sequence"]) else Some(state.sequence);
      if sequence.None? then None
      else NextChainState(lines[1..], ChainState(sequence.value + 1, PyStr(r["entry_hash"])))
  }

  method ComputeChainState(lines: seq<Line>) returns (r: Option<ChainState>)
    ensures r == NextChainState(lines, ChainState(1, GENESIS_HASH))
  {
    var state := ChainState(1, GENESIS_HASH);
    for i := 0 to |lines|
      invariant NextChainState(lines, ChainState(1, GENESIS_HASH)) == NextChainState(lines[i..], state)
    {
      assert lines[i..][0] == lines[i] && lines[i..][1..] == lines[i + 1..];
      if lines[i].NoObject? && lines[i].stopsAppender {
        return None;
      }
      if lines[i].Record? && "entry_hash" in lines[i].fields {
        var f := lines[i].fields;
        var sequence := if "sequence" in f then PyInt(f["sequence"]) else Some(state.sequence);
        if sequence.None? {
          return None;
        }
        state := ChainState(sequence.value + 1, PyStr(f["entry_hash"]));
      }
    }
    return Some(state);
  }

  /** The fields set before the caller's, which the caller's overwrite. */
  function BaseFields(state: ChainState, event: string, ts: int, timestamp: string, pid: int): Fields {
    map["version" := AUDIT_VERSION, "sequence" := Num(state.sequence), "ts" := Num(ts), "timestamp" := Str(timestamp),
        "event" := Str(event), "pid" := Num(pid), "previous_hash" := state.previous]
  }

  function Sign(r: Fields, key: string): Fields {
    var hashed := r["entry_hash" := EntryHash(r)];
    hashed["hmac_sha256" := RecordHmac(hashed, key)]
  }

  /** One call of the appender: the caller's sanitized fields, the clock and the process. */
  datatype Event = Event(event: string, fields: Fields, ts: int, timestamp: string, pid: int)

  function NewRecord(state: ChainState, e: Event, key: string): Fields {
    Sign(BaseFields(state, e.event, e.ts, e.timestamp, e.pid) + e.fields, key)
  }

  function Append(lines: seq<Line>, e: Event, key: string): Option<seq<Line>> {
    var state := NextChainState(lines, ChainState(1, GENESIS_HASH));
    if state.None? then None else Some(lines + [Record(NewRecord(state.value, e, key))])
  }

  /** The log file and the key file behind it; None is a file that does not exist. */
  class AuditLog {
    var enabled: bool
    var log: Option<seq<Line>>
    var material: Option<string>

    function Lines(): seq<Line>
      reads this
    {
      if log.Some? then log.value else []
    }

    method AuditEvent(e: Event, newMaterial: string) returns (raised: bool)
      modifies this
      ensures enabled == old(enabled)
      ensures !enabled ==> !raised && log == old(log) && material == old(material)
      ensures enabled ==> material == if old(material).Some? then old(material) else Some(newMaterial)
      ensures enabled ==> var after := Append(old(Lines()), e, material.value);
                          raised == after.None? && log == if after.Some? then after else old(log)
    {
      raised := false;
      if !enabled {
        return;
      }
      if material.None? {
        material := Some(newMaterial);
      }
      var state := ComputeChainState(Lines());
      if state.None? {
        return true;
      }
      log := Some(Lines() + [Record(NewRecord(state.value, e, material.value))]);
    }

    method VerifyIntegrity() returns (raised: bool, ok: bool)
      ensures raised == (log.Some? && material.Some? && Raises(log.value))
      ensures ok == (log.None? || (material.Some? && Verified(log.value, material.value)))
    {
      if log.None? {
        return false, true;
      }
      if material.None? {
        return false, false;
      }
      var errors;
      raised, ok, errors := VerifyLog(log.value, material.value);
    }
  }

  // ---- lockstep ----

  /** On a chain the appender's walk ends where the verifier's does. */
  lemma {:induction false} WalksAgree(lines: seq<Line>, sequence: int, previous: Value, key: string)
    requires Parses(lines) && Chained(Records(lines), sequence, previous, key)
    ensures NextChainState(lines, ChainState(sequence, previous))
         == Some(ChainState(sequence + |Records(lines)|, LastHash(Records(lines), previous)))
  {
    hide Good;
    if lines != [] {
      assert lines == [lines[0]] + lines[1..];
      if lines[0].Record? {
        var r := lines[0].fields;
        assert Records(lines) == [r] + Records(lines[1..]);
        assert Records(lines)[1..] == Records(lines[1..]);
        GoodFields(r, sequence, previous, key);
        WalksAgree(lines[1..], sequence + 1, EntryHash(r), key);
      } else {
        assert Records(lines) == Records(lines[1..]);
        WalksAgree(lines[1..], sequence, previous, key);
      }
    }
  }

  lemma GoodFields(r: Fields, sequence: int, previous: Value, key: string)
    requires Good(r, sequence, previous, key)
    ensures "entry_hash" in r && "sequence" in r && r["sequence"] == Num(sequence)
            && PyStr(r["entry_hash"]) == EntryHash(r)
  {
  }

  function LastHash(records: seq<Fields>, previous: Value): Value {
    if records == [] then previous else LastHash(records[1..], EntryHash(records[0]))
  }

  /** The caller's fields leave the three chained fields as the appender set them. */
  predicate LeavesChain(e: Event, state: ChainState) {
    && ("version" in e.fields ==> e.fields["version"] == AUDIT_VERSION)
    && ("sequence" in e.fields ==> e.fields["sequence"] == Num(state.sequence))
    && ("previous_hash" in e.fields ==> e.fields["previous_hash"] == state.previous)
  }

  lemma SignedFields(r: Fields, key: string)
    ensures var s := Sign(r, key);
            && Field(s, "entry_hash") == Some(EntryHash(s)) && Field(s, "hmac_sha256") == Some(RecordHmac(s, key))
            && forall k | k != "entry_hash" && k != "hmac_sha256" :: Field(s, k) == Field(r, k)
  {
    var hashed := r["entry_hash" := EntryHash(r)];
    var s := Sign(r, key);
    assert Minus(s, {"entry_hash", "hmac_sha256"}) == Minus(r, {"entry_hash", "hmac_sha256"});
    assert Minus(s, {"hmac_sha256"}) == Minus(hashed, {"hmac_sha256"});
  }

  /** The record just built is good in its place exactly when the caller's fields left the chain alone. */
  lemma NewRecordGood(state: ChainState, e: Event, key: string)
    ensures Good(NewRecord(state, e, key), state.sequence, state.previous, key) <==> LeavesChain(e, state)
  {
    var base := BaseFields(state, e.event, e.ts, e.timestamp, e.pid);
    SignedFields(base + e.fields, key);
    assert "version" != "entry_hash" && "sequence" != "entry_hash" && "previous_hash" != "entry_hash";
    assert "version" != "hmac_sha256" && "sequence" != "hmac_sha256" && "previous_hash" != "hmac_sha256";
    assert base["version"] == AUDIT_VERSION && base["sequence"] == Num(state.sequence)
        && base["previous_hash"] == state.previous;
  }

  lemma {:induction false} ChainedAppend(records: seq<Fields>, r: Fields, sequence: int, previous: Value, key: string)
    requires Chained(records, sequence, previous, key)
    ensures Chained(records + [r], sequence, previous, key)
       <==> Good(r, sequence + |records|, LastHash(records, previous), key)
  {
    hide Good;
    if records == [] {
      assert records + [r] == [r] && [r][1..] == [];
    } else {
      assert (records + [r])[0] == records[0] && (records + [r])[1..] == records[1..] + [r];
      ChainedAppend(records[1..], r, sequence + 1, EntryHash(records[0]), key);
    }
  }

  lemma {:induction false} RecordsAppend(lines: seq<Line>, r: Fields)
    ensures Records(lines + [Record(r)]) == Records(lines) + [r]
  {
    var all := lines + [Record(r)];
    if lines == [] {
      assert all[0] == Record(r) && all[1..] == [];
    } else {
      assert all[0] == lines[0] && all[1..] == lines[1..] + [Record(r)];
      RecordsAppend(lines[1..], r);
      var head := if lines[0].Record? then [lines[0].fields] else [];
      assert head + (Records(lines[1..]) + [r]) == (head + Records(lines[1..])) + [r];
    }
  }

  /**
   Appending to a verified log gives a verified log exactly when the caller passes
   no version, sequence or previous_hash that differs from the appender's own.
   */
  lemma AppendKeepsVerified(lines: seq<Line>, e: Event, key: string)
    requires Verified(lines, key)
    ensures var state := ChainState(1 + |Records(lines)|, LastHash(Records(lines), GENESIS_HASH));
            && NextChainState(lines, ChainState(1, GENESIS_HASH)) == Some(state)
            && Append(lines, e, key) == Some(lines + [Record(NewRecord(state, e, key))])
            && (Verified(Append(lines, e, key).value, key) <==> LeavesChain(e, state))
  {
    hide Good, NewRecord, EntryHash;
    ErrorFreeIsChained(lines, 1, 1, GENESIS_HASH, key);
    WalksAgree(lines, 1, GENESIS_HASH, key);
    var state := ChainState(1 + |Records(lines)|, LastHash(Records(lines), GENESIS_HASH));
    var r := NewRecord(state, e, key);
    ErrorFreeIsChained(lines + [Record(r)], 1, 1, GENESIS_HASH, key);
    RecordsAppend(lines, r);
    ChainedAppend(Records(lines), r, 1, GENESIS_HASH, key);
    NewRecordGood(state, e, key);
  }

  // ---- acceptance ----

  /** The records an honest process appends, starting from no log. */
  function Honest(events: seq<Event>, key: string): seq<Fields> {
    if events == [] then []
    else
      var before := Honest(events[..|events| - 1], key);
      before + [NewRecord(ChainState(1 + |before|, LastHash(before, GENESIS_HASH)), events[|events| - 1], key)]
  }

  /** Callers in the program pass none of the three chained fields. */
  predicate PlainEvents(events: seq<Event>) {
    forall e <- events :: "version" !in e.fields && "sequence" !in e.fields && "previous_hash" !in e.fields
  }

  lemma {:induction false} HonestIsChained(events: seq<Event>, key: string)
    requires PlainEvents(events)
    ensures |Honest(events, key)| == |events| && Chained(Honest(events, key), 1, GENESIS_HASH, key)
  {
    hide Good, NewRecord, EntryHash;
    if events != [] {
      var shorter, e := events[..|events| - 1], events[|events| - 1];
      HonestIsChained(shorter, key);
      var before := Honest(shorter, key);
      var state := ChainState(1 + |before|, LastHash(before, GENESIS_HASH));
      NewRecordGood(state, e, key);
      ChainedAppend(before, NewRecord(state, e, key), 1, GENESIS_HASH, key);
    }
  }

  /** The honest records are what the appender writes, one call after another. */
  lemma HonestIsAppended(events: seq<Event>, e: Event, lines: seq<Line>, key: string)
    requires PlainEvents(events + [e]) && Parses(lines) && Records(lines) == Honest(events, key)
    ensures Append(lines, e, key).Some? && Records(Append(lines, e, key).value) == Honest(events + [e], key)
    ensures Verified(lines, key)
  {
    hide Good, NewRecord, EntryHash;
    assert (events + [e])[..|events|] == events && forall x <- events :: x in events + [e];
    HonestIsChained(events, key);
    ErrorFreeIsChained(lines, 1, 1, GENESIS_HASH, key);
    AppendKeepsVerified(lines, e, key);
    var state := ChainState(1 + |Records(lines)|, LastHash(Records(lines), GENESIS_HASH));
    RecordsAppend(lines, NewRecord(state, e, key));
  }

  /** The ideal MAC: whoever wrote the log could only reuse tags the honest process made. */
  predicate Unforged(records: seq<Fields>, honest: seq<Fields>, key: string) {
    forall r <- records | Field(r, "hmac_sha256") == Some(RecordHmac(r, key)) ::
      exists h :: h in honest && Minus(h, {"hmac_sha256"}) == Minus(r, {"hmac_sha256"})
  }

  lemma {:induction false} ChainedAt(records: seq<Fields>, sequence: int, previous: Value, key: string, i: nat)
    requires Chained(records, sequence, previous, key) && i < |records|
    ensures Field(records[i], "sequence") == Some(Num(sequence + i))
    ensures Field(records[i], "hmac_sha256") == Some(RecordHmac(records[i], key))
  {
    if i > 0 {
      ChainedAt(records[1..], sequence + 1, EntryHash(records[0]), key, i - 1);
    }
  }

  lemma SameRecord(a: Fields, b: Fields, key: string)
    requires Field(a, "hmac_sha256") == Some(RecordHmac(a, key)) && Field(b, "hmac_sha256") == Some(RecordHmac(b, key))
    requires Minus(a, {"hmac_sha256"}) == Minus(b, {"hmac_sha256"})
    ensures a == b
  {
    forall k | k in a ensures k in b && b[k] == a[k] {
      if k != "hmac_sha256" {
        assert k in Minus(a, {"hmac_sha256"});
        assert k in Minus(b, {"hmac_sha256"}) && Minus(b, {"hmac_sha256"})[k] == a[k];
      }
    }
    forall k | k in b ensures k in a {
      if k != "hmac_sha256" {
        assert k in Minus(b, {"hmac_sha256"});
        assert k in Minus(a, {"hmac_sha256"});
      }
    }
    assert a == b;
  }

  lemma {:induction false} ChainedPrefix(records: seq<Fields>, n: nat, sequence: int, previous: Value, key: string)
    requires Chained(records, sequence, previous, key) && n <= |records|
    ensures Chained(records[..n], sequence, previous, key)
  {
    hide Good;
    if n > 0 {
      ChainedPrefix(records[1..], n - 1, sequence + 1, EntryHash(records[0]), key);
      assert records[..n][1..] == records[1..][..n - 1];
    }
  }

  lemma AcceptedRecordIsHonest(records: seq<Fields>, honest: seq<Fields>, key: string, i: nat)
    requires Chained(records, 1, GENESIS_HASH, key) && Chained(honest, 1, GENESIS_HASH, key)
    requires Unforged(records, honest, key) && i < |records|
    ensures i < |honest| && records[i] == honest[i]
  {
    ChainedAt(records, 1, GENESIS_HASH, key, i);
    assert records[i] in records;
    var h :| h in honest && Minus(h, {"hmac_sha256"}) == Minus(records[i], {"hmac_sha256"});
    var j :| 0 <= j < |honest| && honest[j] == h;
    ChainedAt(honest, 1, GENESIS_HASH, key, j);
    SameRecord(h, records[i], key);
  }

  /**
   A log made without forging tags is accepted exactly when every line parses and
   its records are a prefix of the honest ones: any edit, insertion, reordering,
   duplicate or gap is reported or makes the verifier raise, and only a cut tail passes.
   */
  lemma AcceptedIsPrefixOfHistory(lines: seq<Line>, events: seq<Event>, key: string)
    requires PlainEvents(events) && Unforged(Records(lines), Honest(events, key), key)
    ensures Verified(lines, key) <==> Parses(lines) && Records(lines) <= Honest(events, key)
  {
    hide Chained, Unforged;
    var records, honest := Records(lines), Honest(events, key);
    ErrorFreeIsChained(lines, 1, 1, GENESIS_HASH, key);
    HonestIsChained(events, key);
    if Chained(records, 1, GENESIS_HASH, key) {
      forall i | 0 <= i < |records| ensures i < |honest| && records[i] == honest[i] {
        AcceptedRecordIsHonest(records, honest, key, i);
      }
      if |records| > 0 {
        AcceptedRecordIsHonest(records, honest, key, |records| - 1);
      }
    }
    if records <= honest {
      ChainedPrefix(honest, |records|, 1, GENESIS_HASH, key);
      assert honest[..|records|] == records;
    }
  }

  // ---- what a record says, what its hashes cover, what an error names ----

  /**
   A new record holds the event, the clock and the process it was called with, and the
   chain it continues, each under its own key unless the caller passed that key; every
   field the caller passed; the two hashes; and nothing else.
   */
  lemma NewRecordFields(state: ChainState, e: Event, key: string)
    ensures var r := NewRecord(state, e, key);
            && r.Keys == {"version", "sequence", "ts", "timestamp", "event", "pid", "previous_hash", "entry_hash",
                          "hmac_sha256"} + e.fields.Keys
            && (forall k <- e.fields | k != "entry_hash" && k != "hmac_sha256" :: r[k] == e.fields[k])
            && ("version" !in e.fields ==> r["version"] == Str("2.0"))
            && ("sequence" !in e.fields ==> r["sequence"] == Num(state.sequence))
            && ("ts" !in e.fields ==> r["ts"] == Num(e.ts))
            && ("timestamp" !in e.fields ==> r["timestamp"] == Str(e.timestamp))
            && ("event" !in e.fields ==> r["event"] == Str(e.event))
            && ("pid" !in e.fields ==> r["pid"] == Num(e.pid))
            && ("previous_hash" !in e.fields ==> r["previous_hash"] == state.previous)
  {
    hide Sign, EntryHash, RecordHmac, BaseFields;
    var base := BaseFields(state, e.event, e.ts, e.timestamp, e.pid);
    var r := NewRecord(state, e, key);
    BaseSays(state, e);
    SignedFields(base + e.fields, key);
    SignedKeys(base + e.fields, key);
    forall k | k in base.Keys + e.fields.Keys && k != "entry_hash" && k != "hmac_sha256"
      ensures r[k] == (base + e.fields)[k]
    {
      assert Field(r, k) == Field(base + e.fields, k);
    }
  }

  lemma BaseSays(state: ChainState, e: Event)
    ensures var base := BaseFields(state, e.event, e.ts, e.timestamp, e.pid);
            && base.Keys == {"version", "sequence", "ts", "timestamp", "event", "pid", "previous_hash"}
            && base["version"] == Str("2.0") && base["sequence"] == Num(state.sequence)
            && base["ts"] == Num(e.ts) && base["timestamp"] == Str(e.timestamp) && base["event"] == Str(e.event)
            && base["pid"] == Num(e.pid) && base["previous_hash"] == state.previous
  {
  }

  lemma SignedKeys(r: Fields, key: string)
    ensures Sign(r, key).Keys == r.Keys + {"entry_hash", "hmac_sha256"}
  {
  }

  predicate SameBut(a: Fields, b: Fields, keys: set<string>) {
    && (forall k <- a | k !in keys :: k in b && b[k] == a[k])
    && (forall k <- b | k !in keys :: k in a)
  }

  lemma MinusExactly(a: Fields, b: Fields, keys: set<string>)
    ensures Minus(a, keys) == Minus(b, keys) <==> SameBut(a, b, keys)
  {
    var x, y := Minus(a, keys), Minus(b, keys);
    assert forall k :: k in x <==> k in a && k !in keys;
    assert forall k :: k in y <==> k in b && k !in keys;
    if x == y {
      forall k | k in a && k !in keys ensures k in b && b[k] == a[k] {
        assert k in x && k in y && x[k] == y[k];
      }
      forall k | k in b && k !in keys ensures k in a {
        assert k in y && k in x;
      }
    }
  }

  /** The hash covers every field but the two hashes, and the tag every field but itself. */
  lemma HashesCover(a: Fields, b: Fields, key: string)
    ensures EntryHash(a) == EntryHash(b) <==> SameBut(a, b, {"entry_hash", "hmac_sha256"})
    ensures RecordHmac(a, key) == RecordHmac(b, key) <==> SameBut(a, b, {"hmac_sha256"})
  {
    MinusExactly(a, b, {"entry_hash", "hmac_sha256"});
    MinusExactly(a, b, {"hmac_sha256"});
  }

  /** The hash the next record must continue: that of the last record that has one. */
  function Carried(records: seq<Fields>, previous: Value): Value {
    if records == [] then previous
    else
      var last := records[|records| - 1];
      if "entry_hash" in last then PyStr(last["entry_hash"]) else Carried(records[..|records| - 1], previous)
  }

  lemma {:induction false} CarriedFrom(first: Fields, rest: seq<Fields>, previous: Value)
    ensures Carried([first] + rest, previous) == Carried(rest, HashAfter(first, previous))
  {
    var all := [first] + rest;
    if rest == [] {
      assert all[..|all| - 1] == [];
    } else {
      assert all[..|all| - 1] == [first] + rest[..|rest| - 1];
      CarriedFrom(first, rest[..|rest| - 1], previous);
    }
  }

  /** What is wrong with a line that stands after these records. */
  predicate Fault(l: Line, before: seq<Fields>, previous: Value, sequence: int, key: string, why: Reason) {
    match why
    case RecordRejected => l.Malformed?
    case VersionRejected => l.Record? && Field(l.fields, "version") != Some(Str("2.0"))
    case SequenceRejected => l.Record? && Field(l.fields, "sequence") != Some(Num(sequence + |before|))
    case ChainRejected => l.Record? && Field(l.fields, "previous_hash") != Some(Carried(before, previous))
    case HashRejected => l.Record? && Field(l.fields, "entry_hash") != Some(EntryHash(l.fields))
    case VerifierRejected => l.Record? && Field(l.fields, "hmac_sha256") != Some(RecordHmac(l.fields, key))
  }

  lemma RecordFaults(r: Fields, line: nat, previous: Value, sequence: int, key: string, n: nat, why: Reason)
    ensures Error(n, why) in AtLine(line, RecordReasons(r, sequence, previous, key))
       <==> n == line && Fault(Record(r), [], previous, sequence, key, why)
  {
    hide EntryHash, RecordHmac;
    var reasons := RecordReasons(r, sequence, previous, key);
    assert why in reasons <==> Fault(Record(r), [], previous, sequence, key, why) by {
      ReasonsExactly(r, sequence, previous, key, why);
    }
    if why in reasons {
      var i :| 0 <= i < |reasons| && reasons[i] == why;
      assert AtLine(line, reasons)[i] == Error(line, why);
    }
  }

  lemma ReasonsExactly(r: Fields, sequence: int, previous: Value, key: string, why: Reason)
    ensures why in RecordReasons(r, sequence, previous, key) <==> Fault(Record(r), [], previous, sequence, key, why)
  {
  }

  lemma FaultLater(l: Line, first: Fields, before: seq<Fields>, previous: Value, sequence: int, key: string,
                   why: Reason)
    ensures Fault(l, [first] + before, previous, sequence, key, why)
       <==> Fault(l, before, HashAfter(first, previous), sequence + 1, key, why)
  {
    hide HashAfter, EntryHash, RecordHmac, Carried;
    CarriedFrom(first, before, previous);
  }

  lemma RecordsFrom(lines: seq<Line>, i: nat)
    requires 0 < i <= |lines|
    ensures Records(lines[..i])
         == (if lines[0].Record? then [lines[0].fields] else []) + Records(lines[1..][..i - 1])
  {
    assert lines[..i][0] == lines[0] && lines[..i][1..] == lines[1..][..i - 1];
  }

  /** An error is reported exactly when the line it names has that fault where it stands. */
  lemma {:induction false} ErrorsNameFaults(lines: seq<Line>, line: nat, sequence: int, previous: Value, key: string,
                                            n: nat, why: Reason)
    ensures Error(n, why) in ErrorsFrom(lines, line, sequence, previous, key)
       <==> line <= n < line + |lines|
            && Fault(lines[n - line], Records(lines[..n - line]), previous, sequence, key, why)
  {
    hide Fault, RecordReasons, HashAfter, Carried, Records, AtLine;
    if lines != [] {
      var rest := lines[1..];
      assert Records(lines[..0]) == [] by { NoRecords(lines[..0]); }
      if n > line && n - line < |lines| {
        RecordsFrom(lines, n - line);
      }
      if lines[0].Record? {
        var r := lines[0].fields;
        ErrorsNameFaults(rest, line + 1, sequence + 1, HashAfter(r, previous), key, n, why);
        RecordFaults(r, line, previous, sequence, key, n, why);
        if n > line && n - line < |lines| {
          FaultLater(lines[n - line], r, Records(rest[..n - line - 1]), previous, sequence, key, why);
        }
      } else {
        ErrorsNameFaults(rest, line + 1, sequence, previous, key, n, why);
        NoRecordFault(lines[0], previous, sequence, key, why);
        if n > line && n - line < |lines| {
          assert [] + Records(rest[..n - line - 1]) == Records(rest[..n - line - 1]);
        }
      }
    }
  }

  lemma NoRecords(lines: seq<Line>)
    ensures lines == [] ==> Records(lines) == []
  {
  }

  lemma NoRecordFault(l: Line, previous: Value, sequence: int, key: string, why: Reason)
    requires !l.Record?
    ensures Fault(l, [], previous, sequence, key, why) <==> l.Malformed? && why == RecordRejected
  {
  }

  /** What `verify_log` answers when no line raises: one error for each fault of each line, counted from 1. */
  lemma ReportExactly(lines: seq<Line>, key: string, n: nat, why: Reason)
    ensures Error(n, why) in ErrorsFrom(lines, 1, 1, GENESIS_HASH, key)
       <==> 1 <= n <= |lines| && Fault(lines[n - 1], Records(lines[..n - 1]), Str("sha256:GENESIS"), 1, key, why)
  {
    hide Fault;
    ErrorsNameFaults(lines, 1, 1, GENESIS_HASH, key, n, why);
  }

  /** The line a new record continues: the last record with an entry hash. */
  function LastHashed(lines: seq<Line>): (i: nat)
    ensures i <= |lines|
    ensures i > 0 ==> lines[i - 1].Record? && "entry_hash" in lines[i - 1].fields
    ensures forall j | i <= j < |lines| :: lines[j].Record? ==> "entry_hash" !in lines[j].fields
  {
    if lines == [] then 0
    else
      var n := |lines|;
      if lines[n - 1].Record? && "entry_hash" in lines[n - 1].fields then n else LastHashed(lines[..n - 1])
  }

  predicate StopsAppender(l: Line) {
    || (l.NoObject? && l.stopsAppender)
    || (l.Record? && "entry_hash" in l.fields && "sequence" in l.fields && !l.fields["sequence"].Num?)
  }

  lemma {:induction false} AppenderStopsExactly(lines: seq<Line>, state: ChainState)
    ensures NextChainState(lines, state).None? <==> exists l :: l in lines && StopsAppender(l)
  {
    hide PyStr;
    if lines != [] {
      assert lines == [lines[0]] + lines[1..];
      if StopsAppender(lines[0]) {
        assert lines[0] in lines;
      } else {
        AppenderStopsExactly(lines[1..], StateAfter(lines[0], state));
        assert forall x <- lines[1..] :: x in lines;
      }
    }
  }

  /** The state is that of the last record with an entry hash; nothing before it counts. */
  predicate ContinuesLast(lines: seq<Line>, state: ChainState, next: ChainState) {
    var i := LastHashed(lines);
    if i == 0 then next == state
    else
      && next.previous == PyStr(lines[i - 1].fields["entry_hash"])
      && ("sequence" in lines[i - 1].fields ==> lines[i - 1].fields["sequence"] == Num(next.sequence - 1))
  }

  lemma ContinuesNext(lines: seq<Line>, state: ChainState, next: ChainState)
    requires lines != [] && !StopsAppender(lines[0]) && ContinuesLast(lines[1..], StateAfter(lines[0], state), next)
    ensures ContinuesLast(lines, state, next)
  {
    hide LastHashed, PyStr;
    LastHashedFrom(lines);
  }

  lemma {:induction false} AppenderKeepsLast(lines: seq<Line>, state: ChainState)
    ensures var next := NextChainState(lines, state); next.Some? ==> ContinuesLast(lines, state, next.value)
  {
    if lines != [] && !StopsAppender(lines[0]) {
      AppenderKeepsLast(lines[1..], StateAfter(lines[0], state));
      var next := NextChainState(lines, state);
      if next.Some? {
        assert next == NextChainState(lines[1..], StateAfter(lines[0], state));
        hide ContinuesLast, NextChainState, StateAfter;
        ContinuesNext(lines, state, next.value);
      }
    }
  }

  lemma AppenderContinuesLast(lines: seq<Line>)
    ensures var next := NextChainState(lines, ChainState(1, GENESIS_HASH));
            && (next.None? <==> exists l :: l in lines && StopsAppender(l))
            && (next.Some? ==> ContinuesLast(lines, ChainState(1, Str("sha256:GENESIS")), next.value))
  {
    hide StopsAppender, ContinuesLast, NextChainState;
    AppenderStopsExactly(lines, ChainState(1, GENESIS_HASH));
    AppenderKeepsLast(lines, ChainState(1, GENESIS_HASH));
  }

  function StateAfter(l: Line, state: ChainState): ChainState
    requires !StopsAppender(l)
  {
    if !l.Record? || "entry_hash" !in l.fields then state
    else ChainState((if "sequence" in l.fields then l.fields["sequence"].n else state.sequence) + 1,
                    PyStr(l.fields["entry_hash"]))
  }

  lemma {:induction false} LastHashedFrom(lines: seq<Line>)
    requires lines != []
    ensures LastHashed(lines) == if LastHashed(lines[1..]) > 0 then 1 + LastHashed(lines[1..])
                                 else if lines[0].Record? && "entry_hash" in lines[0].fields then 1 else 0
  {
  }
}
