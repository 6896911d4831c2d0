/**
 The JPEG scrubber of metadata.py: marker segments up to the first start-of-scan
 or end-of-image marker (section B.1.1.4 of ITU-T T.81), APP1 and APP13 dropped.
 */
module JpegScrub {
  import opened Wrappers
  import opened Bytes

  const SOI: Bytes := [0xFF, 0xD8]
  const EOI: Bytes := [0xFF, 0xD9]
  const SOS_CODE: Byte := 0xDA
  const EOI_CODE: Byte := 0xD9

  predicate IsRestart(code: Byte) {
    0xD0 <= code <= 0xD7
  }

  predicate IsStripped(segment: Bytes) {
    |segment| >= 2 && segment[1] in {0xE1, 0xED}
  }

  /** Segments before the first SOS or EOI, and the tail from there: verbatim from SOS, bare for EOI. */
  datatype Parsed = Parsed(segments: seq<Bytes>, tail: Bytes)

  /** The parse of what follows SOI; None is the scrubber's refusal. */
  function Parse(rest: Bytes): Option<Parsed>
    decreases |rest|
  {
    if |rest| < 4 || rest[0] != 0xFF then None
    else if rest[1] == SOS_CODE then Some(Parsed([], rest))
    else if rest[1] == EOI_CODE then Some(Parsed([], EOI))
    else if IsRestart(rest[1]) then Prepend(rest[..2], Parse(rest[2..]))
    else
      var end := 2 + U16(rest[2..4]);
      if end < 4 || end > |rest| then None else Prepend(rest[..end], Parse(rest[end..]))
  }

  function Prepend(segment: Bytes, p: Option<Parsed>): Option<Parsed> {
    if p.None? then None else Some(Parsed([segment] + p.value.segments, p.value.tail))
  }

  function Keep(segments: seq<Bytes>): seq<Bytes> {
    if segments == [] then []
    else (if IsStripped(segments[0]) then [] else [segments[0]]) + Keep(segments[1..])
  }

  /** What the scrubber returns, by meaning. */
  function Scrubbed(data: Bytes): Option<Bytes>
    requires SOI <= data
  {
    var p := Parse(data[2..]);
    if p.None? then None else Some(SOI + Flatten(Keep(p.value.segments)) + p.value.tail)
  }

  method ScrubJpeg(data: Bytes) returns (r: Option<Bytes>)
    requires SOI <= data
    ensures r == Scrubbed(data)
  {
    hide Parse, Flatten, Keep, U16, PrependAll;
    var out, pos, n := SOI, 2, |data|;
    var sawTerminal := false;
    ghost var whole := Parse(data[2..]);
    ghost var passed: seq<Bytes> := [];
    NothingKept();
    PrependAllEmpty(whole);
    while pos + 3 < n && !sawTerminal
      invariant 2 <= pos <= n
      invariant !sawTerminal ==> out == SOI + Flatten(Keep(passed)) && whole == PrependAll(passed, Parse(data[pos..]))
      invariant sawTerminal ==> Scrubbed(data) == Some(out)
      decreases n - pos, !sawTerminal
    {
      var rest := data[pos..];
      assert rest[0] == data[pos] && rest[1] == data[pos + 1] && rest[2..4] == data[pos + 2..pos + 4];
      PrependAllNone(passed);
      ParseStep(rest);
      if data[pos] != 0xFF {
        return None;
      }
      var marker := data[pos + 1];
      if marker == SOS_CODE {
        PrependAllTail(passed, rest);
        out := out + data[pos..];
        sawTerminal := true;
      } else if marker == EOI_CODE {
        PrependAllTail(passed, EOI);
        out := out + EOI;
        sawTerminal := true;
      } else if IsRestart(marker) {
        assert data[pos + 2..] == rest[2..] && rest[..2] == [0xFF, marker];
        PassSegment(passed, [0xFF, marker], Parse(rest[2..]));
        out := out + [0xFF, marker];
        passed := passed + [[0xFF, marker]];
        pos := pos + 2;
      } else {
        var segLen := U16(data[pos + 2..pos + 4]);
        if segLen < 2 {
          return None;
        }
        var segEnd := pos + 2 + segLen;
        if segEnd > n {
          return None;
        }
        var segment := data[pos..segEnd];
        assert segment == rest[..2 + segLen] && data[segEnd..] == rest[2 + segLen..] && segment[1] == marker;
        PassSegment(passed, segment, Parse(rest[2 + segLen..]));
        if marker !in {0xE1, 0xED} {
          out := out + segment;
        }
        passed := passed + [segment];
        pos := segEnd;
      }
    }
    if !sawTerminal {
      PrependAllNone(passed);
      ParseStep(data[pos..]);
      return None;
    }
    return Some(out);
  }

  // ---- loop bookkeeping ----

  /** One turn of the parser. */
  lemma ParseStep(rest: Bytes)
    ensures Parse(rest)
         == if |rest| < 4 || rest[0] != 0xFF then None
            else if rest[1] == SOS_CODE then Some(Parsed([], rest))
            else if rest[1] == EOI_CODE then Some(Parsed([], EOI))
            else if IsRestart(rest[1]) then Prepend(rest[..2], Parse(rest[2..]))
            else if 2 + U16(rest[2..4]) < 4 || 2 + U16(rest[2..4]) > |rest| then None
            else Prepend(rest[..2 + U16(rest[2..4])], Parse(rest[2 + U16(rest[2..4])..]))
  {
  }

  lemma NothingKept()
    ensures SOI + Flatten(Keep([])) == SOI
  {
  }

  function PrependAll(segments: seq<Bytes>, p: Option<Parsed>): Option<Parsed> {
    if p.None? then None else Some(Parsed(segments + p.value.segments, p.value.tail))
  }

  lemma PrependAllNone(segments: seq<Bytes>)
    ensures PrependAll(segments, None) == None
  {
  }

  lemma PrependAllEmpty(p: Option<Parsed>)
    ensures PrependAll([], p) == p
  {
    assert p.Some? ==> [] + p.value.segments == p.value.segments;
  }

  lemma PrependAllCons(s: Bytes, segments: seq<Bytes>, p: Option<Parsed>)
    ensures PrependAll([s] + segments, p) == Prepend(s, PrependAll(segments, p))
  {
    assert p.Some? ==> [s] + segments + p.value.segments == [s] + (segments + p.value.segments);
  }

  lemma PrependAllTail(segments: seq<Bytes>, tail: Bytes)
    ensures PrependAll(segments, Some(Parsed([], tail))) == Some(Parsed(segments, tail))
  {
    assert segments + [] == segments;
  }

  lemma PassSegment(passed: seq<Bytes>, segment: Bytes, p: Option<Parsed>)
    ensures PrependAll(passed, Prepend(segment, p)) == PrependAll(passed + [segment], p)
    ensures Flatten(Keep(passed + [segment])) == Flatten(Keep(passed)) + (if IsStripped(segment) then [] else segment)
  {
    if p.Some? {
      assert passed + ([segment] + p.value.segments) == passed + [segment] + p.value.segments;
    }
    KeepAppend(passed, segment);
    FlattenAppend(Keep(passed), [segment]);
    assert Keep(passed) + [] == Keep(passed);
    assert Flatten([segment]) == segment + Flatten([]) == segment;
  }

  lemma {:induction false} KeepAppend(segments: seq<Bytes>, segment: Bytes)
    ensures Keep(segments + [segment]) == Keep(segments) + (if IsStripped(segment) then [] else [segment])
  {
    if segments == [] {
      assert segments + [segment] == [segment] && [segment][1..] == [];
    } else {
      assert (segments + [segment])[1..] == segments[1..] + [segment];
      KeepAppend(segments[1..], segment);
    }
  }

  // ---- the grammar ----

  /** A restart marker alone, or a marker other than SOS and EOI with its counted payload. */
  predicate SegmentOk(s: Bytes) {
    |s| >= 2 && s[0] == 0xFF && s[1] != SOS_CODE && s[1] != EOI_CODE
    && if IsRestart(s[1]) then |s| == 2 else |s| >= 4 && |s| == 2 + U16(s[2..4])
  }

  /** What may follow the segments, and the tail kept of it. */
  predicate TailOk(rest: Bytes, tail: Bytes) {
    |rest| >= 4 && rest[0] == 0xFF
    && ((rest[1] == SOS_CODE && tail == rest) || (rest[1] == EOI_CODE && tail == EOI))
  }

  /** The data reads as these segments and this tail, without running the parser. */
  predicate Reads(rest: Bytes, p: Parsed) {
    && (forall s <- p.segments :: SegmentOk(s))
    && Flatten(p.segments) <= rest
    && TailOk(rest[|Flatten(p.segments)|..], p.tail)
  }

  /** The scrubber succeeds exactly on data the grammar reads, and the reading is unique. */
  lemma ParsesExactly(rest: Bytes, p: Parsed)
    ensures Parse(rest) == Some(p) <==> Reads(rest, p)
  {
    ParseReads(rest);
    if Reads(rest, p) {
      ReadingParses(p.segments, rest[|Flatten(p.segments)|..], p.tail);
      assert rest == Flatten(p.segments) + rest[|Flatten(p.segments)|..];
    }
  }

  lemma {:induction false} ParseReads(rest: Bytes)
    ensures Parse(rest).Some? ==> Reads(rest, Parse(rest).value)
    decreases |rest|
  {
    hide Reads, U16;
    if |rest| >= 4 && rest[0] == 0xFF {
      if rest[1] == SOS_CODE || rest[1] == EOI_CODE {
        ReadsTail(rest, Parse(rest).value.tail);
      } else {
        var end := if IsRestart(rest[1]) then 2 else 2 + U16(rest[2..4]);
        if end <= |rest| && (IsRestart(rest[1]) || end >= 4) {
          var s, tail := rest[..end], rest[end..];
          ParseReads(tail);
          if Parse(tail).Some? {
            assert !IsRestart(rest[1]) ==> s[2..4] == rest[2..4];
            ReadsSegment(s, tail, Parse(tail).value);
            assert rest == s + tail;
          }
        }
      }
    }
  }

  lemma ReadsTail(rest: Bytes, tail: Bytes)
    requires TailOk(rest, tail)
    ensures Reads(rest, Parsed([], tail))
  {
    assert rest[0..] == rest;
  }

  lemma ReadsSegment(s: Bytes, rest: Bytes, p: Parsed)
    requires SegmentOk(s) && Reads(rest, p)
    ensures Reads(s + rest, Parsed([s] + p.segments, p.tail))
  {
    hide SegmentOk, TailOk;
    assert ([s] + p.segments)[1..] == p.segments;
    assert Flatten([s] + p.segments) == s + Flatten(p.segments);
    assert (s + rest)[|s + Flatten(p.segments)|..] == rest[|Flatten(p.segments)|..];
  }

  lemma SegmentStart(s: Bytes, rest: Bytes)
    requires SegmentOk(s) && |rest| >= 2
    ensures Parse(s + rest) == Prepend(s, Parse(rest))
  {
    var all := s + rest;
    assert all[0] == s[0] && all[1] == s[1];
    assert all[..|s|] == s && all[|s|..] == rest;
    if !IsRestart(s[1]) {
      assert all[2..4] == s[2..4];
    }
  }

  lemma {:induction false} SegmentsStart(segments: seq<Bytes>, rest: Bytes)
    requires (forall s <- segments :: SegmentOk(s)) && |rest| >= 2
    ensures Parse(Flatten(segments) + rest) == PrependAll(segments, Parse(rest))
  {
    hide Parse, SegmentOk;
    if segments == [] {
      assert Flatten(segments) + rest == rest;
      PrependAllEmpty(Parse(rest));
    } else {
      var s, more := segments[0], segments[1..];
      SegmentsStart(more, rest);
      assert Flatten(segments) + rest == s + (Flatten(more) + rest);
      SegmentStart(s, Flatten(more) + rest);
      assert segments == [s] + more;
      PrependAllCons(s, more, Parse(rest));
    }
  }

  lemma ReadingParses(segments: seq<Bytes>, rest: Bytes, tail: Bytes)
    requires (forall s <- segments :: SegmentOk(s)) && TailOk(rest, tail)
    ensures Parse(Flatten(segments) + rest) == Some(Parsed(segments, tail))
  {
    SegmentsStart(segments, rest);
    PrependAllTail(segments, tail);
  }

  // ---- a second pass ----

  lemma {:induction false} KeepFacts(segments: seq<Bytes>)
    ensures forall s :: s in Keep(segments) <==> s in segments && !IsStripped(s)
    ensures Keep(Keep(segments)) == Keep(segments)
    ensures |Flatten(Keep(segments))| <= |Flatten(segments)|
  {
    if segments != [] {
      KeepFacts(segments[1..]);
      var s, rest := segments[0], Keep(segments[1..]);
      assert segments == [s] + segments[1..];
      assert ([s] + rest)[1..] == rest && [] + rest == rest;
    }
  }

  /** Whether the image runs into a scan, rather than ending before one. */
  predicate ReachesScan(data: Bytes)
    requires SOI <= data
  {
    Parse(data[2..]).Some? && Parse(data[2..]).value.tail != EOI
  }

  /**
   The result never grows, holds no APP1 or APP13 segment, and a second pass gives
   it back unchanged exactly when it ends in a scan: a final EOI is refused, because
   the loop wants two more bytes after the marker.
   */
  lemma SecondPass(data: Bytes)
    requires SOI <= data && Scrubbed(data).Some?
    ensures var out := Scrubbed(data).value;
            && SOI <= out && |out| <= |data|
            && Scrubbed(out) == (if ReachesScan(data) then Some(out) else None)
  {
    hide Parse, Flatten, Keep, SegmentOk;
    var rest := data[2..];
    var p := Parse(rest).value;
    ParsesExactly(rest, p);
    KeepFacts(p.segments);
    var kept, out := Keep(p.segments), Scrubbed(data).value;
    assert |rest| == |Flatten(p.segments)| + |rest[|Flatten(p.segments)|..]|;
    assert out[2..] == Flatten(kept) + p.tail;
    SegmentsStart(kept, p.tail);
    ParseStep(p.tail);
    PrependAllNone(kept);
    PrependAllTail(kept, p.tail);
  }

  /** Each segment is kept in its place, APP1 and APP13 alone dropped. */
  lemma {:induction false} KeepEach(before: seq<Bytes>, segment: Bytes, after: seq<Bytes>)
    requires SegmentOk(segment)
    ensures Keep([]) == []
    ensures Keep(before + [segment] + after)
         == Keep(before) + (if segment[1] == 0xE1 || segment[1] == 0xED then [] else [segment]) + Keep(after)
  {
    hide SegmentOk;
    var all := before + [segment] + after;
    assert |segment| >= 2 by { LongEnough(segment); }
    if before == [] {
      assert all[0] == segment && all[1..] == after;
    } else {
      assert all[0] == before[0] && all[1..] == before[1..] + [segment] + after;
      KeepEach(before[1..], segment, after);
    }
  }

  lemma LongEnough(segment: Bytes)
    requires SegmentOk(segment)
    ensures |segment| >= 2
  {
  }
}
