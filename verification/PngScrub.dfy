/**
 PNG chunks in metadata.py: the scrubber and the risk detector. A chunk is a
 length, a type, that many bytes and a checksum (section 3.2 of RFC 2083).
 */
module PngScrub {
  import opened Bytes

  const SIGNATURE: Bytes := [0x89, 0x50, 0x4E, 0x47, 0x0D, 0x0A, 0x1A, 0x0A]
  const SCAN_LIMIT: nat := 262144

  predicate IsEnd(chunkType: Bytes) {
    chunkType == [0x49, 0x45, 0x4E, 0x44]
  }

  /** tEXt, iTXt, zTXt, eXIf and tIME. */
  predicate IsMetadata(chunkType: Bytes) {
    chunkType in {[0x74, 0x45, 0x58, 0x74], [0x69, 0x54, 0x58, 0x74], [0x7A, 0x54, 0x58, 0x74],
                  [0x65, 0x58, 0x49, 0x66], [0x74, 0x49, 0x4D, 0x45]}
  }

  function TypeOf(chunk: Bytes): Bytes {
    if |chunk| >= 8 then chunk[4..8] else []
  }

  function ChunkLength(rest: Bytes): nat
    requires |rest| >= 8
  {
    12 + U32(rest)
  }

  predicate Incomplete(rest: Bytes) {
    |rest| < 8 || ChunkLength(rest) > |rest|
  }

  /** The complete chunks from the front, up to and with the first IEND. */
  function Chunks(rest: Bytes): seq<Bytes>
    decreases |rest|
  {
    if Incomplete(rest) then []
    else
      var n := ChunkLength(rest);
      [rest[..n]] + if IsEnd(TypeOf(rest)) then [] else Chunks(rest[n..])
  }

  function Keep(chunks: seq<Bytes>): seq<Bytes> {
    if chunks == [] then []
    else (if IsMetadata(TypeOf(chunks[0])) then [] else [chunks[0]]) + Keep(chunks[1..])
  }

  predicate CompleteChunk(c: Bytes) {
    |c| >= 12 && |c| == ChunkLength(c)
  }

  /** Complete chunks, IEND nowhere but last. */
  predicate ChunkList(chunks: seq<Bytes>) {
    && (forall c <- chunks :: CompleteChunk(c))
    && (forall i | 0 <= i < |chunks| - 1 :: !IsEnd(TypeOf(chunks[i])))
  }

  predicate EndsWithIend(chunks: seq<Bytes>) {
    chunks != [] && IsEnd(TypeOf(chunks[|chunks| - 1]))
  }

  /** Which chunk lists the data divides into, without running the parser. */
  predicate Divides(rest: Bytes, chunks: seq<Bytes>) {
    && ChunkList(chunks)
    && Flatten(chunks) <= rest
    && (EndsWithIend(chunks) || Incomplete(rest[|Flatten(chunks)|..]))
  }

  lemma ChunkStart(c: Bytes, tail: Bytes)
    requires CompleteChunk(c)
    ensures var rest := c + tail;
            !Incomplete(rest) && ChunkLength(rest) == |c| && TypeOf(rest) == TypeOf(c) && rest[..|c|] == c
                && rest[|c|..] == tail
  {
    assert (c + tail)[..8] == c[..8];
  }

  /** The parser finds the one chunk list the data divides into. */
  lemma {:induction false} ChunksExactly(rest: Bytes, chunks: seq<Bytes>)
    ensures Chunks(rest) == chunks <==> Divides(rest, chunks)
    decreases |rest|, |chunks|
  {
    ChunksDivide(rest);
    if Divides(rest, chunks) {
      DivisionUnique(rest, chunks);
    }
  }

  lemma {:induction false} ChunksDivide(rest: Bytes)
    ensures Divides(rest, Chunks(rest))
    decreases |rest|
  {
    hide Divides, IsEnd, U32;
    if Incomplete(rest) {
      NothingDivides(rest);
    } else {
      var n := ChunkLength(rest);
      var c, tail := rest[..n], rest[n..];
      assert c[..8] == rest[..8] && rest == c + tail;
      FirstFieldsSame(c, rest);
      if IsEnd(TypeOf(rest)) {
        assert Chunks(rest) == [c];
        EndDivides(c, tail);
      } else {
        ChunksDivide(tail);
        ChunkDivides(c, tail, Chunks(tail));
      }
    }
  }

  lemma FirstFieldsSame(c: Bytes, rest: Bytes)
    requires |c| >= 8 && |rest| >= 8 && c[..8] == rest[..8]
    ensures U32(c) == U32(rest) && TypeOf(c) == TypeOf(rest)
  {
    assert c[4..8] == c[..8][4..8] && rest[4..8] == rest[..8][4..8];
    assert forall i | 0 <= i < 4 :: c[i] == c[..8][i] && rest[i] == rest[..8][i];
  }

  lemma NothingDivides(rest: Bytes)
    requires Incomplete(rest)
    ensures Divides(rest, [])
  {
    assert rest[0..] == rest;
  }

  lemma EndDivides(c: Bytes, tail: Bytes)
    requires CompleteChunk(c) && IsEnd(TypeOf(c))
    ensures Divides(c + tail, [c])
  {
    assert Flatten([c]) == c + Flatten([]) == c;
  }

  lemma ChunkDivides(c: Bytes, tail: Bytes, more: seq<Bytes>)
    requires CompleteChunk(c) && !IsEnd(TypeOf(c)) && Divides(tail, more)
    ensures Divides(c + tail, [c] + more)
  {
    hide CompleteChunk, IsEnd, Incomplete;
    var cs := [c] + more;
    assert cs[1..] == more && forall i | 0 < i < |cs| :: cs[i] == more[i - 1];
    assert Flatten(cs) == c + Flatten(more);
    assert (c + tail)[|Flatten(cs)|..] == tail[|Flatten(more)|..];
  }

  lemma {:induction false} DivisionUnique(rest: Bytes, chunks: seq<Bytes>)
    requires Divides(rest, chunks)
    ensures Chunks(rest) == chunks
    decreases |rest|
  {
    hide IsEnd, U32;
    if chunks == [] {
      assert rest[0..] == rest;
    } else {
      var c, tail := chunks[0], rest[|chunks[0]|..];
      assert c in chunks;
      assert Flatten(chunks) == c + Flatten(chunks[1..]);
      assert rest[..|c|] == c && rest == c + tail;
      ChunkStart(c, tail);
      if IsEnd(TypeOf(c)) {
        assert chunks == [c];
      } else {
        assert Flatten(chunks[1..]) <= tail;
        assert rest[|Flatten(chunks)|..] == tail[|Flatten(chunks[1..])|..];
        assert forall i | 0 <= i < |chunks| - 1 :: chunks[1..][i] == chunks[i + 1];
        DivisionUnique(tail, chunks[1..]);
        assert chunks == [c] + chunks[1..];
      }
    }
  }

  /** What the scrubber returns, by meaning: the signature and the kept chunks in order. */
  function Scrubbed(data: Bytes): Bytes
    requires SIGNATURE <= data
  {
    SIGNATURE + Flatten(Keep(Chunks(data[8..])))
  }

  lemma FieldsAt(data: Bytes, pos: nat)
    requires pos + 8 <= |data|
    ensures U32(data[pos..pos + 4]) == U32(data[pos..]) && data[pos + 4..pos + 8] == TypeOf(data[pos..])
  {
  }

  /** One turn of the parser. */
  lemma ChunksStep(rest: Bytes)
    ensures Chunks(rest) == if Incomplete(rest) then []
                            else ([rest[..ChunkLength(rest)]]
                                  + (if IsEnd(TypeOf(rest)) then [] else Chunks(rest[ChunkLength(rest)..])))
  {
  }

  /** What the chunk at `pos`, complete or not, adds to the result. */
  lemma ChunkAt(data: Bytes, pos: nat)
    requires pos + 8 <= |data|
    ensures var end := pos + 12 + U32(data[pos..pos + 4]);
            if end > |data| then Kept(data[pos..]) == []
            else Kept(data[pos..]) == (if IsMetadata(data[pos + 4..pos + 8]) then [] else data[pos..end])
                                      + (if IsEnd(data[pos + 4..pos + 8]) then [] else Kept(data[end..]))
  {
    hide IsMetadata, IsEnd, U32, Keep, Flatten, Chunks;
    var rest := data[pos..];
    FieldsAt(data, pos);
    ChunksStep(rest);
    NothingKept();
    var end := pos + 12 + U32(data[pos..pos + 4]);
    if end <= |data| {
      var chunk := data[pos..end];
      assert chunk == rest[..ChunkLength(rest)] && TypeOf(chunk) == TypeOf(rest);
      assert data[end..] == rest[ChunkLength(rest)..];
      KeepStep(chunk, if IsEnd(TypeOf(rest)) then [] else Chunks(data[end..]));
    }
  }

  /** The bytes the scrubber keeps of what follows the signature. */
  function Kept(rest: Bytes): Bytes {
    Flatten(Keep(Chunks(rest)))
  }

  method ScrubPng(data: Bytes) returns (out: Bytes)
    requires SIGNATURE <= data
    ensures out == Scrubbed(data)
  {
    out := AppendKept(SIGNATURE, data);
  }

  /** The scrubber's loop: walks the chunks after the signature and copies those kept. */
  method AppendKept(start: Bytes, data: Bytes) returns (out: Bytes)
    requires |data| >= 8
    ensures out == start + Kept(data[8..])
  {
    hide Kept, IsMetadata, IsEnd, U32;
    out := start;
    var pos, n, done := 8, |data|, false;
    ghost var whole := start + Kept(data[8..]);
    while pos + 8 <= n && !done
      invariant 8 <= pos <= n
      invariant whole == if done then out else out + Kept(data[pos..])
      decreases n - pos, !done
    {
      ChunkAt(data, pos);
      var chunkLen := U32(data[pos..pos + 4]);
      var chunkType := data[pos + 4..pos + 8];
      var chunkEnd := pos + 12 + chunkLen;
      if chunkEnd > n {
        done := true;
        NothingAdded(out);
      } else {
        ghost var rest := if IsEnd(chunkType) then [] else Kept(data[chunkEnd..]);
        Regroup(out, if IsMetadata(chunkType) then [] else data[pos..chunkEnd], rest);
        if !IsMetadata(chunkType) {
          out := out + data[pos..chunkEnd];
        } else {
          NothingAdded(out);
        }
        pos := chunkEnd;
        if IsEnd(chunkType) {
          done := true;
          NothingAdded(out);
        }
      }
    }
    if !done {
      ShortRestKeepsNothing(data[pos..]);
      NothingAdded(out);
    }
  }

  lemma NothingAdded(out: Bytes)
    ensures out + [] == out
  {
  }

  lemma Regroup(a: Bytes, b: Bytes, c: Bytes)
    ensures a + (b + c) == (a + b) + c
  {
  }

  lemma ShortRestKeepsNothing(rest: Bytes)
    requires |rest| < 8
    ensures Kept(rest) == []
  {
  }

  lemma NothingKept()
    ensures Flatten(Keep([])) == []
  {
  }

  lemma KeepStep(c: Bytes, chunks: seq<Bytes>)
    ensures Flatten(Keep([c] + chunks)) == (if IsMetadata(TypeOf(c)) then [] else c) + Flatten(Keep(chunks))
  {
    assert ([c] + chunks)[1..] == chunks;
    assert ([c] + Keep(chunks))[1..] == Keep(chunks);
    assert [] + Keep(chunks) == Keep(chunks);
  }

  lemma {:induction false} KeepIsChunkList(chunks: seq<Bytes>)
    requires ChunkList(chunks)
    ensures ChunkList(Keep(chunks))
    ensures forall c :: c in Keep(chunks) <==> c in chunks && !IsMetadata(TypeOf(c))
    ensures Keep(Keep(chunks)) == Keep(chunks)
  {
    hide IsMetadata, IsEnd, U32;
    if chunks != [] {
      var c, rest := chunks[0], chunks[1..];
      assert chunks == [c] + rest;
      assert forall i | 0 <= i < |rest| - 1 :: rest[i] == chunks[i + 1];
      KeepIsChunkList(rest);
      if !IsMetadata(TypeOf(c)) {
        assert Keep(chunks) == [c] + Keep(rest) && Keep(chunks)[1..] == Keep(rest);
        if IsEnd(TypeOf(c)) {
          assert rest == [];
        }
      } else {
        assert Keep(chunks) == Keep(rest);
      }
    }
  }

  lemma {:induction false} KeepNoLonger(chunks: seq<Bytes>)
    requires forall c <- chunks :: CompleteChunk(c)
    ensures |Flatten(Keep(chunks))| <= |Flatten(chunks)|
    ensures |Flatten(Keep(chunks))| == |Flatten(chunks)| ==> Keep(chunks) == chunks
  {
    hide IsMetadata, IsEnd, U32;
    if chunks != [] {
      var c, rest := chunks[0], chunks[1..];
      KeepNoLonger(rest);
      assert chunks == [c] + rest;
      KeepStep(c, rest);
      assert CompleteChunk(c);
      assert Keep(chunks) == (if IsMetadata(TypeOf(c)) then [] else [c]) + Keep(rest);
    }
  }

  /** A second pass finds the kept chunks again and removes nothing. */
  lemma ScrubIsIdempotent(data: Bytes)
    requires SIGNATURE <= data
    ensures SIGNATURE <= Scrubbed(data) && Scrubbed(Scrubbed(data)) == Scrubbed(data)
    ensures Chunks(Scrubbed(data)[8..]) == Keep(Chunks(data[8..]))
    ensures |Scrubbed(data)| <= |data|
  {
    hide IsMetadata, IsEnd, U32;
    var chunks := Chunks(data[8..]);
    ChunksDivide(data[8..]);
    KeepIsChunkList(chunks);
    KeepNoLonger(chunks);
    var body := Flatten(Keep(chunks));
    assert Scrubbed(data)[8..] == body;
    assert body[|body|..] == [];
    DivisionUnique(body, Keep(chunks));
  }

  // ---- detector ----

  /** The metadata types the detector reports, each once, walking chunk to chunk within the scan limit. */
  function RiskTypes(rest: Bytes, budget: int, found: seq<Bytes>): seq<Bytes>
    decreases |rest|
  {
    if |rest| < 8 || budget < 8 then found
    else
      var t := TypeOf(rest);
      var more := if IsMetadata(t) && t !in found then found + [t] else found;
      var n := ChunkLength(rest);
      if IsEnd(t) || n > |rest| then more else RiskTypes(rest[n..], budget - n, more)
  }

  function Risks(data: Bytes): seq<Bytes>
    requires |data| >= 8
  {
    RiskTypes(data[8..], (if |data| < SCAN_LIMIT then |data| else SCAN_LIMIT) - 8, [])
  }

  method PngRisks(data: Bytes) returns (risks: seq<Bytes>)
    requires SIGNATURE <= data
    ensures risks == Risks(data)
  {
    hide IsMetadata, IsEnd, U32;
    risks := [];
    var pos, done := 8, false;
    var limit := if |data| < SCAN_LIMIT then |data| else SCAN_LIMIT;
    while pos + 8 <= limit && !done
      invariant pos >= 8
      invariant !done && pos <= |data| ==> Risks(data) == RiskTypes(data[pos..], limit - pos, risks)
      invariant done || pos > |data| ==> Risks(data) == risks
      decreases limit - pos, !done
    {
      var rest := data[pos..];
      var chunkLen := U32(data[pos..pos + 4]);
      var chunkType := data[pos + 4..pos + 8];
      FieldsAt(data, pos);
      if IsMetadata(chunkType) && chunkType !in risks {
        risks := risks + [chunkType];
      }
      pos := pos + 12 + chunkLen;
      if pos <= |data| {
        assert data[pos..] == rest[12 + chunkLen..];
      }
      if IsEnd(chunkType) {
        done := true;
      }
    }
  }

  /** One turn of the detector over a complete chunk. */
  lemma RiskStep(c: Bytes, tail: Bytes, budget: int, found: seq<Bytes>)
    requires CompleteChunk(c)
    ensures var more := if IsMetadata(TypeOf(c)) && TypeOf(c) !in found then found + [TypeOf(c)] else found;
            RiskTypes(c + tail, budget, found)
            == if budget < 8 then found else if IsEnd(TypeOf(c)) then more else RiskTypes(tail, budget - |c|, more)
  {
    hide IsMetadata, IsEnd, U32;
    ChunkStart(c, tail);
  }

  lemma ChunkListTail(chunks: seq<Bytes>)
    requires ChunkList(chunks) && chunks != []
    ensures CompleteChunk(chunks[0]) && ChunkList(chunks[1..]) && chunks == [chunks[0]] + chunks[1..]
    ensures Flatten(chunks) == chunks[0] + Flatten(chunks[1..])
    ensures IsEnd(TypeOf(chunks[0])) ==> chunks[1..] == []
  {
    hide IsEnd, TypeOf, CompleteChunk;
    assert forall i | 0 <= i < |chunks| - 1 :: chunks[1..][i] == chunks[i + 1];
  }

  lemma {:induction false} NoMetadataNoRisks(chunks: seq<Bytes>, budget: int, found: seq<Bytes>)
    requires ChunkList(chunks) && forall c <- chunks :: !IsMetadata(TypeOf(c))
    ensures RiskTypes(Flatten(chunks), budget, found) == found
    decreases |chunks|
  {
    if chunks == [] {
      assert RiskTypes([], budget, found) == found;
    } else {
      hide IsMetadata, IsEnd, RiskTypes, TypeOf, CompleteChunk, ChunkList;
      ChunkListTail(chunks);
      RiskStep(chunks[0], Flatten(chunks[1..]), budget, found);
      NoMetadataNoRisks(chunks[1..], budget - |chunks[0]|, found);
    }
  }

  predicate HasType(chunks: seq<Bytes>, t: Bytes) {
    exists c :: c in chunks && TypeOf(c) == t
  }

  lemma HasTypeCons(c: Bytes, rest: seq<Bytes>, t: Bytes)
    ensures HasType([c] + rest, t) <==> TypeOf(c) == t || HasType(rest, t)
  {
    hide TypeOf;
    assert c in [c] + rest;
    assert forall d <- rest :: d in [c] + rest;
  }

  /** Within the scan limit the report is exactly the metadata types present. */
  lemma {:induction false} RisksOfChunkList(chunks: seq<Bytes>, budget: int, found: seq<Bytes>, t: Bytes)
    requires ChunkList(chunks) && |Flatten(chunks)| <= budget
    ensures t in RiskTypes(Flatten(chunks), budget, found) <==> t in found || (IsMetadata(t) && HasType(chunks, t))
    decreases |chunks|
  {
    if chunks == [] {
      assert RiskTypes([], budget, found) == found && !HasType([], t);
    } else {
      var c, rest := chunks[0], chunks[1..];
      ChunkListTail(chunks);
      HasTypeCons(c, rest, t);
      assert budget >= 8;
      hide IsMetadata, IsEnd, RiskTypes, TypeOf, CompleteChunk, ChunkList, HasType;
      RiskStep(c, Flatten(rest), budget, found);
      var next := if IsMetadata(TypeOf(c)) && TypeOf(c) !in found then found + [TypeOf(c)] else found;
      RisksOfChunkList(rest, budget - |c|, next, t);
    }
  }

  /** The detector finds nothing in what the scrubber returns, of any length. */
  lemma ScrubbedHasNoRisks(data: Bytes)
    requires SIGNATURE <= data
    ensures SIGNATURE <= Scrubbed(data) && Risks(Scrubbed(data)) == []
  {
    hide IsMetadata, IsEnd, U32;
    var chunks := Chunks(data[8..]);
    ChunksDivide(data[8..]);
    KeepIsChunkList(chunks);
    var out := Scrubbed(data);
    assert out[8..] == Flatten(Keep(chunks));
    NoMetadataNoRisks(Keep(chunks), (if |out| < SCAN_LIMIT then |out| else SCAN_LIMIT) - 8, []);
  }

  /** On a whole file within the scan limit, the detector is silent exactly when the scrubber changes nothing. */
  lemma DetectorAgreesWithScrubber(data: Bytes)
    requires SIGNATURE <= data && |data| <= 262144
    requires data[8..] == Flatten(Chunks(data[8..]))
    ensures Risks(data) == [] <==> Scrubbed(data) == data
  {
    hide IsMetadata, IsEnd, U32, Keep, Flatten, RiskTypes, Chunks;
    var chunks := Chunks(data[8..]);
    ChunksDivide(data[8..]);
    KeepNoLonger(chunks);
    KeepAll(chunks);
    SilentExactly(chunks, |data| - 8);
    assert data == SIGNATURE + data[8..];
    assert Scrubbed(data)[8..] == Flatten(Keep(chunks));
  }

  lemma SilentExactly(chunks: seq<Bytes>, budget: int)
    requires ChunkList(chunks) && |Flatten(chunks)| <= budget
    ensures RiskTypes(Flatten(chunks), budget, []) == [] <==> forall c <- chunks :: !IsMetadata(TypeOf(c))
  {
    hide IsMetadata, IsEnd, U32, RiskTypes, Flatten;
    if c :| c in chunks && IsMetadata(TypeOf(c)) {
      RisksOfChunkList(chunks, budget, [], TypeOf(c));
    } else {
      NoMetadataNoRisks(chunks, budget, []);
    }
  }

  lemma {:induction false} KeepAll(chunks: seq<Bytes>)
    ensures (forall c <- chunks :: !IsMetadata(TypeOf(c))) <==> Keep(chunks) == chunks
    ensures forall c <- Keep(chunks) :: !IsMetadata(TypeOf(c))
  {
    hide IsMetadata;
    if chunks != [] {
      KeepAll(chunks[1..]);
      assert chunks == [chunks[0]] + chunks[1..];
    }
  }

  // ---- which chunks ----

  function AsciiByte(c: char): Byte
    requires c as int < 128
  {
    c as int
  }

  function Ascii(name: string): (b: Bytes)
    requires forall i | 0 <= i < |name| :: name[i] as int < 128
    ensures |b| == |name|
  {
    seq(|name|, i requires 0 <= i < |name| => AsciiByte(name[i]))
  }

  /** The types that end the image and the types that are metadata, by their names. */
  lemma TypesByName(t: Bytes)
    ensures IsEnd(t) <==> t == Ascii("IEND")
    ensures IsMetadata(t)
       <==> t == Ascii("tEXt") || t == Ascii("iTXt") || t == Ascii("zTXt") || t == Ascii("eXIf") || t == Ascii("tIME")
  {
    assert Ascii("IEND") == [0x49, 0x45, 0x4E, 0x44];
    assert Ascii("tEXt") == [0x74, 0x45, 0x58, 0x74] && Ascii("iTXt") == [0x69, 0x54, 0x58, 0x74];
    assert Ascii("zTXt") == [0x7A, 0x54, 0x58, 0x74] && Ascii("eXIf") == [0x65, 0x58, 0x49, 0x66];
    assert Ascii("tIME") == [0x74, 0x49, 0x4D, 0x45];
  }

  lemma Regrouped(a: seq<Bytes>, b: seq<Bytes>, c: seq<Bytes>, d: seq<Bytes>)
    ensures a + (b + c + d) == (a + b) + c + d
  {
  }

  lemma {:induction false} KeepAround(before: seq<Bytes>, chunk: Bytes, after: seq<Bytes>)
    ensures Keep(before + [chunk] + after)
         == Keep(before) + (if IsMetadata(TypeOf(chunk)) then [] else [chunk]) + Keep(after)
  {
    hide IsMetadata, TypeOf;
    var all := before + [chunk] + after;
    var kept := if IsMetadata(TypeOf(chunk)) then [] else [chunk];
    if before == [] {
      assert all[0] == chunk && all[1..] == after;
      assert Keep(all) == kept + Keep(after) && [] + kept == kept;
    } else {
      var first := if IsMetadata(TypeOf(before[0])) then [] else [before[0]];
      assert all[0] == before[0] && all[1..] == before[1..] + [chunk] + after;
      KeepAround(before[1..], chunk, after);
      assert Keep(all) == first + (Keep(before[1..]) + kept + Keep(after));
      assert Keep(before) == first + Keep(before[1..]);
      Regrouped(first, Keep(before[1..]), kept, Keep(after));
    }
  }

  /** Each chunk is kept in its place or dropped for its own type alone. */
  lemma KeepEach(before: seq<Bytes>, chunk: Bytes, after: seq<Bytes>)
    requires CompleteChunk(chunk)
    ensures Keep([]) == []
    ensures Keep(before + [chunk] + after)
         == Keep(before)
            + (if chunk[4..8] in {Ascii("tEXt"), Ascii("iTXt"), Ascii("zTXt"), Ascii("eXIf"), Ascii("tIME")} then []
               else [chunk]) + Keep(after)
  {
    hide IsMetadata, Ascii, U32;
    KeepAround(before, chunk, after);
    assert TypeOf(chunk) == chunk[4..8];
    TypesByName(chunk[4..8]);
  }
}
